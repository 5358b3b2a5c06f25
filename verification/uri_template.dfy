/** PathTemplate: a template text compiles to `(T)(/.*)?`, where T is the text with every
    placeholder replaced by a group, and a path matches when Matcher.matches() succeeds.
    Matching is modelled as the backtracking search java.util.regex performs, trying the
    candidates of each variable in the engine's order. */
module UriTemplate {
  import opened Wrappers
  import opened TemplateSyntax

  /** A variable's pattern: the default `([^/]+?)`, lazy, or an explicit `([..]+)`, greedy. */
  datatype Pattern = Default | Explicit(cls: CharClass)

  /** One compiled element: a literal character (`.` being the regex wildcard) or a variable. */
  datatype Token = Lit(c: char) | Var(name: string, pattern: Pattern)

  datatype Template = Template(tokens: seq<Token>)

  /** Why a template text does not compile. DuplicateVariable is the source's
      IllegalArgumentException; UnsupportedSyntax marks regex syntax outside the modelled fragment. */
  datatype CompileError = DuplicateVariable(name: string) | UnsupportedSyntax(text: string)

  /** The characters `.` does not match when the DOTALL flag is off. */
  const LineTerminators: set<char> := {'\n', '\r', '\U{85}', '\U{2028}', '\U{2029}'}

  /** Regex metacharacters other than `.` that the model does not interpret in literal text. */
  predicate IsRegexMeta(c: char) {
    c in {'\\', '[', ']', '(', ')', '{', '}', '|', '^', '$', '*', '+', '?'}
  }

  // ---------------------------------------------------------------------------
  // What a template declares (PathVariables.variables and specificPatternCount)
  // ---------------------------------------------------------------------------

  function Variables(ts: seq<Token>): seq<string> {
    if ts == [] then []
    else if ts[0].Var? then [ts[0].name] + Variables(ts[1..])
    else Variables(ts[1..])
  }

  function Patterns(ts: seq<Token>): seq<Pattern> {
    if ts == [] then []
    else if ts[0].Var? then [ts[0].pattern] + Patterns(ts[1..])
    else Patterns(ts[1..])
  }

  function SpecificCount(ts: seq<Token>): nat {
    if ts == [] then 0
    else (if ts[0].Var? && ts[0].pattern.Explicit? then 1 else 0) + SpecificCount(ts[1..])
  }

  function LiteralCount(ts: seq<Token>): nat {
    if ts == [] then 0
    else (if ts[0].Lit? then 1 else 0) + LiteralCount(ts[1..])
  }

  /** The template text a token stands for: a literal prints as itself, a variable as the
      placeholder it was compiled from. */
  function RenderToken(t: Token): string {
    match t
    case Lit(c) => [c]
    case Var(n, Default) => "{" + n + "}"
    case Var(n, Explicit(k)) => "{" + n + ":" + RenderClass(k) + "}"
  }

  function RenderTokens(ts: seq<Token>): string {
    if ts == [] then "" else RenderToken(ts[0]) + RenderTokens(ts[1..])
  }

  lemma TokensCons(t: Token, ts: seq<Token>)
    ensures Variables([t] + ts) == (if t.Var? then [t.name] else []) + Variables(ts)
    ensures Patterns([t] + ts) == (if t.Var? then [t.pattern] else []) + Patterns(ts)
    ensures SpecificCount([t] + ts) == (if t.Var? && t.pattern.Explicit? then 1 else 0) + SpecificCount(ts)
    ensures LiteralCount([t] + ts) == (if t.Lit? then 1 else 0) + LiteralCount(ts)
    ensures RenderTokens([t] + ts) == RenderToken(t) + RenderTokens(ts)
  {
    assert ([t] + ts)[1..] == ts;
  }

  // ---------------------------------------------------------------------------
  // Compilation (the PathTemplate constructor)
  // ---------------------------------------------------------------------------

  /** A piece outside the modelled fragment: a regex metacharacter in the literal text, or an
      explicit pattern that is not one character class followed by `+`. */
  predicate Unsupported(p: Piece) {
    match p
    case Text(c) => IsRegexMeta(c)
    case Placeholder(_, None) => false
    case Placeholder(_, Some(q)) => ParseClass(q).None?
  }

  /** The text an UnsupportedSyntax error reports for a piece. */
  function UnsupportedText(p: Piece): string {
    match p
    case Text(c) => [c]
    case Placeholder(_, q) => q.GetOr("")
  }

  /** Translates one scanned piece: text to a literal, a placeholder to a variable. */
  function ToToken(p: Piece): (r: Result<Token, CompileError>)
    ensures r.Failure? <==> Unsupported(p)
    ensures r.Failure? ==> r.error == UnsupportedSyntax(UnsupportedText(p))
    ensures r.Success? ==> RenderToken(r.value) == Render(p)
    ensures r.Success? ==> (r.value.Var? <==> p.Placeholder?)
    ensures r.Success? && r.value.Var? ==> r.value.name == p.name && (r.value.pattern.Explicit? <==> p.pattern.Some?)
  {
    match p
    case Text(c) => if IsRegexMeta(c) then Failure(UnsupportedSyntax([c])) else Success(Lit(c))
    case Placeholder(n, None) => Success(Var(n, Default))
    case Placeholder(n, Some(q)) =>
      match ParseClass(q)
      case Some(k) => Success(Var(n, Explicit(k)))
      case None => Failure(UnsupportedSyntax(q))
  }

  /** Translates scanned pieces to tokens, first unsupported piece first. The tokens print back
      as the pieces' text, so every explicit pattern keeps the class it was written with. */
  function ToTokens(ps: seq<Piece>): (r: Result<seq<Token>, CompileError>)
    ensures r.Failure? ==> exists i :: 0 <= i < |ps| && Unsupported(ps[i])
                                       && (forall j :: 0 <= j < i ==> !Unsupported(ps[j]))
                                       && r.error == UnsupportedSyntax(UnsupportedText(ps[i]))
    ensures r.Success? ==> forall i :: 0 <= i < |ps| ==> !Unsupported(ps[i])
    ensures r.Success? ==> RenderTokens(r.value) == RenderAll(ps)
    ensures r.Success? ==> Variables(r.value) == Names(ps)
    ensures r.Success? ==> SpecificCount(r.value) == ExplicitCount(ps)
    ensures r.Success? ==> LiteralCount(r.value) + |Names(ps)| == |ps|
  {
    if ps == [] then Success([])
    else
      match ToToken(ps[0])
      case Failure(e) => Failure(e)
      case Success(tok) =>
        match ToTokens(ps[1..])
        case Failure(e) =>
          UnsupportedLater(ps, e);
          Failure(e)
        case Success(rest) =>
          TokensCons(tok, rest);
          assert forall i :: 1 <= i < |ps| ==> ps[i] == ps[1..][i - 1];
          Success([tok] + rest)
  }

  /** The first unsupported piece after a supported head is the first of the whole list. */
  lemma UnsupportedLater(ps: seq<Piece>, e: CompileError)
    requires |ps| > 0 && !Unsupported(ps[0])
    requires exists i :: 0 <= i < |ps[1..]| && Unsupported(ps[1..][i])
                         && (forall j :: 0 <= j < i ==> !Unsupported(ps[1..][j]))
                         && e == UnsupportedSyntax(UnsupportedText(ps[1..][i]))
    ensures exists i :: 0 <= i < |ps| && Unsupported(ps[i])
                        && (forall j :: 0 <= j < i ==> !Unsupported(ps[j]))
                        && e == UnsupportedSyntax(UnsupportedText(ps[i]))
  {
    var i :| 0 <= i < |ps[1..]| && Unsupported(ps[1..][i])
             && (forall j :: 0 <= j < i ==> !Unsupported(ps[1..][j]))
             && e == UnsupportedSyntax(UnsupportedText(ps[1..][i]));
    assert ps[i + 1] == ps[1..][i];
    forall j | 0 <= j < i + 1
      ensures !Unsupported(ps[j])
    {
      if j > 0 {
        assert ps[j] == ps[1..][j - 1];
      }
    }
  }

  /** The name at index j repeats one declared before it. */
  ghost predicate Repeated(names: seq<string>, n: string) {
    exists j :: 0 <= j < |names| && names[j] == n && n in names[..j]
  }

  /** The first name, from index k on, that repeats an earlier one: the name for which
      PathVariables.replace throws. */
  function FirstRepeat(names: seq<string>, k: nat): (r: Option<string>)
    requires k <= |names|
    ensures r.None? <==> forall j :: k <= j < |names| ==> names[j] !in names[..j]
    ensures r.Some? ==> Repeated(names, r.value)
    decreases |names| - k
  {
    if k == |names| then None
    else if names[k] in names[..k] then Some(names[k])
    else FirstRepeat(names, k + 1)
  }

  lemma DistinctIffNoRepeat(names: seq<string>)
    ensures Distinct(names) <==> forall j :: 0 <= j < |names| ==> names[j] !in names[..j]
  {
    if !Distinct(names) {
      var i, j :| 0 <= i < j < |names| && names[i] == names[j];
      assert names[j] == names[..j][i];
    }
  }

  /** new PathTemplate(text): scan the placeholders, reject a repeated name (before any regex
      syntax is looked at, as replaceAll runs before Pattern.compile), then compile. */
  function Compile(text: string): (r: Result<Template, CompileError>)
    ensures (r.Failure? && r.error.DuplicateVariable?) <==> !Distinct(Names(Scan(text)))
    ensures r.Failure? && r.error.DuplicateVariable? ==> Repeated(Names(Scan(text)), r.error.name)
    ensures r.Success? ==> Variables(r.value.tokens) == Names(Scan(text))
    ensures r.Success? ==> Distinct(Variables(r.value.tokens))
    ensures r.Success? ==> SpecificCount(r.value.tokens) == ExplicitCount(Scan(text))
    ensures r.Success? ==> RenderTokens(r.value.tokens) == text
    ensures (r.Failure? && r.error.UnsupportedSyntax?) <==>
              Distinct(Names(Scan(text))) && exists i :: 0 <= i < |Scan(text)| && Unsupported(Scan(text)[i])
  {
    var pieces := Scan(text);
    DistinctIffNoRepeat(Names(pieces));
    match FirstRepeat(Names(pieces), 0)
    case Some(n) => Failure(DuplicateVariable(n))
    case None =>
      match ToTokens(pieces)
      case Success(ts) => Success(Template(ts))
      case Failure(e) => Failure(e)
  }

  // ---------------------------------------------------------------------------
  // Matching
  // ---------------------------------------------------------------------------

  predicate LitAccepts(c: char, x: char) {
    if c == '.' then x !in LineTerminators else x == c
  }

  /** The character class under a variable's `+` or `+?`. */
  predicate CharOk(p: Pattern, x: char) {
    match p
    case Default => x != '/'
    case Explicit(k) => InClass(k, x)
  }

  /** A value a variable can capture: one or more characters of its class. */
  predicate Accepts(p: Pattern, v: string) {
    |v| > 0 && forall i :: 0 <= i < |v| ==> CharOk(p, v[i])
  }

  /** The implicit `(/.*)?` reaching the end of the input. */
  predicate SuffixOk(rest: string) {
    rest == [] || (rest[0] == '/' && forall i :: 1 <= i < |rest| ==> rest[i] !in LineTerminators)
  }

  /** The length of the longest prefix of s in the variable's class. */
  function Run(p: Pattern, s: string): (n: nat)
    ensures n <= |s|
    ensures forall i :: 0 <= i < n ==> CharOk(p, s[i])
    ensures n < |s| ==> !CharOk(p, s[n])
  {
    if s == [] || !CharOk(p, s[0]) then 0 else 1 + Run(p, s[1..])
  }

  predicate IsSuffix(r: string, s: string) {
    |r| <= |s| && s[|s| - |r|..] == r
  }

  lemma SuffixOfSuffix(r: string, s: string, n: nat)
    requires n <= |s| && IsSuffix(r, s[n..])
    ensures IsSuffix(r, s)
  {
    assert s[|s| - |r|..] == s[n..][|s[n..]| - |r|..];
  }

  lemma HitSuffix(r: Option<Hit>, s: string, n: nat)
    requires n <= |s| && (r.Some? ==> IsSuffix(r.value.rest, s[n..]))
    ensures r.Some? ==> IsSuffix(r.value.rest, s)
  {
    if r.Some? {
      SuffixOfSuffix(r.value.rest, s, n);
    }
  }

  /** A successful search: the captured values in declaration order and the input left
      for `(/.*)?`. */
  datatype Hit = Hit(values: seq<string>, rest: string)

  /** Matches ts followed by `(/.*)?` against the whole of s, in the order java.util.regex
      backtracks: the first successful way wins. */
  function Search(ts: seq<Token>, s: string): (r: Option<Hit>)
    ensures r.Some? ==> IsSuffix(r.value.rest, s) && SuffixOk(r.value.rest)
    decreases |ts|, 1, 0
  {
    if ts == [] then
      if SuffixOk(s) then Some(Hit([], s)) else None
    else
      match ts[0]
      case Lit(c) =>
        if |s| > 0 && LitAccepts(c, s[0]) then
          var r := Search(ts[1..], s[1..]);
          HitSuffix(r, s, 1);
          r
        else None
      case Var(_, Default) => Lazy(ts, s, 1)
      case Var(_, Explicit(_)) => Greedy(ts, s, Run(ts[0].pattern, s))
  }

  /** A lazy variable `+?`: tries the shortest capture first, then one more character at a time. */
  function Lazy(ts: seq<Token>, s: string, n: nat): (r: Option<Hit>)
    requires |ts| > 0 && ts[0].Var? && 1 <= n <= |s| + 1
    ensures r.Some? ==> IsSuffix(r.value.rest, s) && SuffixOk(r.value.rest)
    ensures r.Some? ==> n <= Run(ts[0].pattern, s)
    decreases |ts|, 0, |s| + 1 - n
  {
    if n > Run(ts[0].pattern, s) then None
    else
      match Search(ts[1..], s[n..])
      case Some(h) =>
        SuffixOfSuffix(h.rest, s, n);
        Some(Hit([s[..n]] + h.values, h.rest))
      case None => Lazy(ts, s, n + 1)
  }

  /** A greedy variable `+`: tries the longest capture first, then gives back one character at a time. */
  function Greedy(ts: seq<Token>, s: string, n: nat): (r: Option<Hit>)
    requires |ts| > 0 && ts[0].Var? && n <= |s|
    ensures r.Some? ==> IsSuffix(r.value.rest, s) && SuffixOk(r.value.rest)
    ensures r.None? ==> forall k :: 1 <= k <= n ==> Search(ts[1..], s[k..]).None?
    decreases |ts|, 0, n
  {
    if n == 0 then None
    else
      match Search(ts[1..], s[n..])
      case Some(h) =>
        SuffixOfSuffix(h.rest, s, n);
        Some(Hit([s[..n]] + h.values, h.rest))
      case None => Greedy(ts, s, n - 1)
  }

  /** The declarative reading of a match: m splits into the template's literal characters and
      one accepted value per variable, in order. */
  ghost predicate Fits(ts: seq<Token>, vals: seq<string>, m: string)
    decreases |ts|
  {
    if ts == [] then vals == [] && m == []
    else
      match ts[0]
      case Lit(c) => |m| > 0 && LitAccepts(c, m[0]) && Fits(ts[1..], vals, m[1..])
      case Var(_, p) =>
        && |vals| > 0 && |vals[0]| <= |m|
        && m[..|vals[0]|] == vals[0]
        && Accepts(p, vals[0])
        && Fits(ts[1..], vals[1..], m[|vals[0]|..])
  }

  /** The part of s a hit consumed: group(1). */
  function Consumed(s: string, h: Hit): string
    requires |h.rest| <= |s|
  {
    s[..|s| - |h.rest|]
  }

  lemma {:induction false} SearchSound(ts: seq<Token>, s: string)
    requires Search(ts, s).Some?
    ensures Fits(ts, Search(ts, s).value.values, Consumed(s, Search(ts, s).value))
    decreases |ts|, 1, 0
  {
    var h := Search(ts, s).value;
    if ts != [] {
      match ts[0]
      case Lit(c) =>
        SearchSound(ts[1..], s[1..]);
        assert Consumed(s, h)[1..] == Consumed(s[1..], h);
      case Var(_, Default) => LazySound(ts, s, 1);
      case Var(_, Explicit(_)) => GreedySound(ts, s, Run(ts[0].pattern, s));
    }
  }

  /** The step shared by both variable kinds: a capture of n class characters followed by a
      sound hit on the rest is a sound hit. */
  lemma CaptureSound(ts: seq<Token>, s: string, n: nat, h: Hit)
    requires |ts| > 0 && ts[0].Var? && 1 <= n <= Run(ts[0].pattern, s)
    requires IsSuffix(h.rest, s[n..]) && Fits(ts[1..], h.values, Consumed(s[n..], h))
    ensures Fits(ts, [s[..n]] + h.values, s[..|s| - |h.rest|])
  {
    var m := s[..|s| - |h.rest|];
    var vals := [s[..n]] + h.values;
    RunAccepts(ts[0].pattern, s, n);
    CaptureSplit(s, n, h);
    assert vals[0] == s[..n] && vals[1..] == h.values;
  }

  /** CaptureSound, read off the hit that records the capture. */
  lemma HitSound(ts: seq<Token>, s: string, n: nat, h: Hit, g: Hit)
    requires |ts| > 0 && ts[0].Var? && 1 <= n <= Run(ts[0].pattern, s)
    requires IsSuffix(h.rest, s[n..]) && Fits(ts[1..], h.values, Consumed(s[n..], h))
    requires g == Hit([s[..n]] + h.values, h.rest)
    ensures Fits(ts, g.values, Consumed(s, g))
  {
    CaptureSound(ts, s, n, h);
    FitsSame(ts, [s[..n]] + h.values, s[..|s| - |h.rest|], g.values, Consumed(s, g));
  }

  /** A prefix of the run of class characters is a value the variable accepts. */
  lemma RunAccepts(p: Pattern, s: string, n: nat)
    requires 1 <= n <= Run(p, s)
    ensures Accepts(p, s[..n])
  {
    forall i | 0 <= i < n ensures CharOk(p, s[..n][i]) {
      assert s[..n][i] == s[i];
    }
  }

  /** What a hit after n characters consumes, seen from the start of s. */
  lemma CaptureSplit(s: string, n: nat, h: Hit)
    requires n <= |s| && IsSuffix(h.rest, s[n..])
    ensures n <= |s| - |h.rest|
    ensures s[..|s| - |h.rest|][..n] == s[..n]
    ensures s[..|s| - |h.rest|][n..] == Consumed(s[n..], h)
  {
  }

  lemma FitsSame(ts: seq<Token>, vals: seq<string>, m: string, vals': seq<string>, m': string)
    requires Fits(ts, vals, m) && vals == vals' && m == m'
    ensures Fits(ts, vals', m')
  {
  }

  lemma {:induction false} LazySound(ts: seq<Token>, s: string, n: nat)
    requires |ts| > 0 && ts[0].Var? && 1 <= n <= |s| + 1
    requires Lazy(ts, s, n).Some?
    ensures Fits(ts, Lazy(ts, s, n).value.values, Consumed(s, Lazy(ts, s, n).value))
    decreases |ts|, 0, |s| + 1 - n
  {
    LazyStep(ts, s, n);
    var g := Lazy(ts, s, n).value;
    if Search(ts[1..], s[n..]).Some? {
      var h := Search(ts[1..], s[n..]).value;
      LazyHit(ts, s, n);
      SearchSound(ts[1..], s[n..]);
      HitSound(ts, s, n, h, g);
    } else {
      LazySound(ts, s, n + 1);
      TakenOnSound(ts, s, n);
    }
  }

  /** When the lazy search takes one more character, its soundness carries back. */
  lemma TakenOnSound(ts: seq<Token>, s: string, n: nat)
    requires |ts| > 0 && ts[0].Var? && 1 <= n <= Run(ts[0].pattern, s)
    requires Search(ts[1..], s[n..]).None? && Lazy(ts, s, n + 1).Some?
    requires Fits(ts, Lazy(ts, s, n + 1).value.values, Consumed(s, Lazy(ts, s, n + 1).value))
    ensures Lazy(ts, s, n).Some?
    ensures Fits(ts, Lazy(ts, s, n).value.values, Consumed(s, Lazy(ts, s, n).value))
  {
    LazyStep(ts, s, n);
    var g, g' := Lazy(ts, s, n).value, Lazy(ts, s, n + 1).value;
    FitsSame(ts, g'.values, Consumed(s, g'), g.values, Consumed(s, g));
  }

  lemma {:induction false} GreedySound(ts: seq<Token>, s: string, n: nat)
    requires |ts| > 0 && ts[0].Var? && n <= Run(ts[0].pattern, s)
    requires Greedy(ts, s, n).Some?
    ensures Fits(ts, Greedy(ts, s, n).value.values, Consumed(s, Greedy(ts, s, n).value))
    decreases |ts|, 0, n, 1
  {
    if Search(ts[1..], s[n..]).Some? {
      GreedyHitSound(ts, s, n);
    } else {
      GivenBack(ts, s, n);
      GreedySound(ts, s, n - 1);
    }
  }

  /** When the rest of the template matches after n characters, the greedy search stops
      there, soundly. */
  lemma GreedyHitSound(ts: seq<Token>, s: string, n: nat)
    requires |ts| > 0 && ts[0].Var? && n <= Run(ts[0].pattern, s)
    requires Greedy(ts, s, n).Some? && Search(ts[1..], s[n..]).Some?
    ensures Fits(ts, Greedy(ts, s, n).value.values, Consumed(s, Greedy(ts, s, n).value))
    decreases |ts|, 0, n, 0
  {
    GreedyStep(ts, s, n);
    SearchSound(ts[1..], s[n..]);
    HitSound(ts, s, n, Search(ts[1..], s[n..]).value, Greedy(ts, s, n).value);
  }

  /** When the rest of the template does not match after n characters, the greedy search
      gives one character back and finds what it finds with n - 1. */
  lemma GivenBack(ts: seq<Token>, s: string, n: nat)
    requires |ts| > 0 && ts[0].Var? && n <= |s|
    requires Greedy(ts, s, n).Some? && Search(ts[1..], s[n..]).None?
    ensures 1 <= n && Greedy(ts, s, n - 1) == Greedy(ts, s, n)
  {
  }

  /** Every way of splitting s into a fitting prefix and a `(/.*)?` suffix is found: the
      search fails only when no such split exists. */
  lemma {:induction false} SearchComplete(ts: seq<Token>, vals: seq<string>, m: string, rest: string)
    requires Fits(ts, vals, m) && SuffixOk(rest)
    ensures Search(ts, m + rest).Some?
    decreases |ts|
  {
    var s := m + rest;
    if ts == [] {
      assert s == rest;
    } else {
      match ts[0]
      case Lit(c) =>
        assert s[1..] == m[1..] + rest;
        SearchComplete(ts[1..], vals, m[1..], rest);
      case Var(_, p) =>
        var k := |vals[0]|;
        assert s[k..] == m[k..] + rest;
        SearchComplete(ts[1..], vals[1..], m[k..], rest);
        assert Run(p, s) >= k by {
          assert forall i :: 0 <= i < k ==> s[i] == vals[0][i];
        }
        if p.Default? {
          LazyReaches(ts, s, 1, k);
        } else {
          GreedyReaches(ts, s, Run(p, s), k);
        }
    }
  }

  lemma {:induction false} LazyReaches(ts: seq<Token>, s: string, n: nat, k: nat)
    requires |ts| > 0 && ts[0].Var? && 1 <= n <= k <= Run(ts[0].pattern, s)
    requires Search(ts[1..], s[k..]).Some?
    ensures Lazy(ts, s, n).Some?
    decreases k - n
  {
    LazyStep(ts, s, n);
    if n == k {
      assert Search(ts[1..], s[n..]).Some?;
    } else if Search(ts[1..], s[n..]).None? {
      LazyReaches(ts, s, n + 1, k);
    }
  }

  /** One step of the lazy search within the run: it stops when the rest can be searched from
      here, and otherwise tries one character more. */
  lemma LazyStep(ts: seq<Token>, s: string, n: nat)
    requires |ts| > 0 && ts[0].Var? && 1 <= n <= Run(ts[0].pattern, s)
    ensures Search(ts[1..], s[n..]).Some? ==> Lazy(ts, s, n).Some?
    ensures Search(ts[1..], s[n..]).None? ==> Lazy(ts, s, n) == Lazy(ts, s, n + 1)
  {
  }

  /** The hit the lazy search returns when the rest can be searched after n characters. */
  lemma LazyHit(ts: seq<Token>, s: string, n: nat)
    requires |ts| > 0 && ts[0].Var? && 1 <= n <= Run(ts[0].pattern, s)
    requires Search(ts[1..], s[n..]).Some?
    ensures Lazy(ts, s, n) == Some(Hit([s[..n]] + Search(ts[1..], s[n..]).value.values, Search(ts[1..], s[n..]).value.rest))
  {
  }

  /** The first n characters of m are its first character followed by n - 1 more. */
  lemma PrefixCons(m: string, n: nat)
    requires 1 <= n <= |m|
    ensures m[..n] == [m[0]] + m[1..][..n - 1]
  {
    var a := m[..n];
    var b := [m[0]] + m[1..][..n - 1];
    assert |a| == |b|;
    forall i | 0 <= i < |a| ensures a[i] == b[i] {
      if i > 0 {
        assert b[i] == m[1..][i - 1];
      }
    }
  }

  lemma GreedyReaches(ts: seq<Token>, s: string, n: nat, k: nat)
    requires |ts| > 0 && ts[0].Var? && 1 <= k <= n <= Run(ts[0].pattern, s)
    requires Search(ts[1..], s[k..]).Some?
    ensures Greedy(ts, s, n).Some?
  {
  }

  /** One step of the greedy search: it stops when the rest can be searched from here, and
      otherwise gives back one character. */
  lemma GreedyStep(ts: seq<Token>, s: string, n: nat)
    requires |ts| > 0 && ts[0].Var? && 1 <= n <= |s|
    ensures Search(ts[1..], s[n..]).Some? ==>
              Greedy(ts, s, n) == Some(Hit([s[..n]] + Search(ts[1..], s[n..]).value.values, Search(ts[1..], s[n..]).value.rest))
    ensures Search(ts[1..], s[n..]).None? ==> Greedy(ts, s, n) == Greedy(ts, s, n - 1)
  {
  }

  function TotalLength(vals: seq<string>): nat {
    if vals == [] then 0 else |vals[0]| + TotalLength(vals[1..])
  }

  /** A fitting split has one value per declared variable, each accepted by that variable's
      pattern, and the literal characters account for the rest of the matched text. */
  lemma {:induction false} FitsShape(ts: seq<Token>, vals: seq<string>, m: string)
    requires Fits(ts, vals, m)
    ensures |vals| == |Variables(ts)| == |Patterns(ts)|
    ensures forall i :: 0 <= i < |vals| ==> Accepts(Patterns(ts)[i], vals[i])
    ensures |m| == LiteralCount(ts) + TotalLength(vals)
    decreases |ts|
  {
    if ts != [] {
      TokensCons(ts[0], ts[1..]);
      assert [ts[0]] + ts[1..] == ts;
      match ts[0]
      case Lit(c) =>
        FitsShape(ts[1..], vals, m[1..]);
      case Var(_, p) =>
        FitsShape(ts[1..], vals[1..], m[|vals[0]|..]);
        assert vals == [vals[0]] + vals[1..];
        forall i | 0 < i < |vals| ensures Accepts(Patterns(ts)[i], vals[i]) {
          assert Patterns(ts)[i] == Patterns(ts[1..])[i - 1];
          assert vals[i] == vals[1..][i - 1];
        }
    }
  }

  // ---------------------------------------------------------------------------
  // Match results (PathMatchResult)
  // ---------------------------------------------------------------------------

  /** What a successful match reports: group(1), the last group (None for null), the
      name-to-value map, the captured values in declaration order, the literal-character count,
      and the template's variable and explicit-pattern counts used by compareTo. */
  datatype MatchResult = MatchResult(
    matched: string,
    remaining: Option<string>,
    parameters: map<string, string>,
    values: seq<string>,
    literalCount: int,
    variableCount: nat,
    specificCount: nat)

  /** PathVariables.extract: puts names[i] -> vals[i] in order, a later put replacing an earlier one. */
  function ParameterMap(names: seq<string>, vals: seq<string>): map<string, string>
    requires |names| <= |vals|
  {
    if names == [] then map[]
    else ParameterMap(names[..|names| - 1], vals)[names[|names| - 1] := vals[|names| - 1]]
  }

  lemma {:induction false} ParameterMapFacts(names: seq<string>, vals: seq<string>)
    requires |names| <= |vals|
    ensures ParameterMap(names, vals).Keys == set n | n in names
    ensures Distinct(names) ==>
              forall i :: 0 <= i < |names| ==> ParameterMap(names, vals)[names[i]] == vals[i]
    decreases |names|
  {
    if names != [] {
      var init := names[..|names| - 1];
      ParameterMapFacts(init, vals);
      assert names == init + [names[|names| - 1]];
      if Distinct(names) {
        forall i | 0 <= i < |init| ensures ParameterMap(names, vals)[names[i]] == vals[i] {
          assert names[i] == init[i];
          assert names[i] != names[|names| - 1];
        }
      }
    }
  }

  /** PathTemplate.match. */
  function Match(t: Template, path: string): (r: Option<MatchResult>)
    ensures r.Some? <==> Search(t.tokens, path).Some?
    ensures r.Some? ==> r.value.matched + r.value.remaining.GetOr("") == path
    ensures r.Some? && r.value.remaining.Some? ==>
              |r.value.remaining.value| > 0 && r.value.remaining.value[0] == '/'
    ensures r.Some? ==> Fits(t.tokens, r.value.values, r.value.matched)
  {
    match Search(t.tokens, path)
    case None => None
    case Some(h) =>
      var matched := Consumed(path, h);
      SearchSound(t.tokens, path);
      FitsShape(t.tokens, h.values, matched);
      var names := Variables(t.tokens);
      assert matched + h.rest == path;
      Some(MatchResult(
        matched,
        if h.rest == [] then None else Some(h.rest),
        ParameterMap(names, h.values),
        h.values,
        |matched| - TotalLength(h.values),
        |names|,
        SpecificCount(t.tokens)))
  }

  /** The facts of a successful match: the literal count is the template's number of literal
      characters whatever the path, there is one value per variable accepted by its pattern (so a
      default value is non-empty and free of '/'), and for a template with distinct names the
      map holds exactly the declared names, each bound to its capture. */
  lemma MatchFacts(t: Template, path: string)
    requires Match(t, path).Some?
    ensures var r := Match(t, path).value;
            && r.literalCount == LiteralCount(t.tokens) >= 0
            && |r.values| == |Variables(t.tokens)| == |Patterns(t.tokens)| == r.variableCount
            && r.specificCount == SpecificCount(t.tokens)
            && (forall i :: 0 <= i < |r.values| ==> Accepts(Patterns(t.tokens)[i], r.values[i]))
            && r.parameters.Keys == (set n | n in Variables(t.tokens))
            && (Distinct(Variables(t.tokens)) ==>
                  forall i :: 0 <= i < |r.values| ==> r.parameters[Variables(t.tokens)[i]] == r.values[i])
  {
    var h := Search(t.tokens, path).value;
    SearchSound(t.tokens, path);
    FitsShape(t.tokens, h.values, Consumed(path, h));
    ParameterMapFacts(Variables(t.tokens), h.values);
  }

  /** A path matches exactly when it splits into a fitting prefix and a `(/.*)?` remainder. */
  lemma MatchIffSplit(t: Template, path: string)
    ensures Match(t, path).Some? ==>
              exists k :: 0 <= k <= |path| && SuffixOk(path[k..]) && Fits(t.tokens, Match(t, path).value.values, path[..k])
    ensures forall vals, k :: 0 <= k <= |path| && SuffixOk(path[k..]) && Fits(t.tokens, vals, path[..k]) ==>
              Match(t, path).Some?
  {
    if Match(t, path).Some? {
      MatchSplits(t, path);
    }
    forall vals, k | 0 <= k <= |path| && SuffixOk(path[k..]) && Fits(t.tokens, vals, path[..k])
      ensures Match(t, path).Some?
    {
      SplitMatches(t, path, vals, k);
    }
  }

  /** A match splits the path at the end of the matched text. */
  lemma MatchSplits(t: Template, path: string)
    requires Match(t, path).Some?
    ensures exists k :: 0 <= k <= |path| && SuffixOk(path[k..]) && Fits(t.tokens, Match(t, path).value.values, path[..k])
  {
    var h := Search(t.tokens, path).value;
    SearchSound(t.tokens, path);
    var k := |path| - |h.rest|;
    assert path[k..] == h.rest;
  }

  /** A split into a fitting prefix and a `(/.*)?` remainder is a match. */
  lemma SplitMatches(t: Template, path: string, vals: seq<string>, k: nat)
    requires k <= |path| && SuffixOk(path[k..]) && Fits(t.tokens, vals, path[..k])
    ensures Match(t, path).Some?
  {
    SearchComplete(t.tokens, vals, path[..k], path[k..]);
    assert path[..k] + path[k..] == path;
  }

  // ---------------------------------------------------------------------------
  // Ranking (PathMatchResult.compareTo and PathVariables.compareTo)
  // ---------------------------------------------------------------------------

  /** The specificity order: more literal characters, then more variables, then more
      explicit-pattern variables. */
  predicate RanksBefore(a: MatchResult, b: MatchResult) {
    || a.literalCount > b.literalCount
    || (a.literalCount == b.literalCount && a.variableCount > b.variableCount)
    || (a.literalCount == b.literalCount && a.variableCount == b.variableCount && a.specificCount > b.specificCount)
  }

  predicate SameRank(a: MatchResult, b: MatchResult) {
    a.literalCount == b.literalCount && a.variableCount == b.variableCount && a.specificCount == b.specificCount
  }

  /** Integer.compare. */
  function IntCompare(x: int, y: int): int {
    if x < y then -1 else if x > y then 1 else 0
  }

  /** compareTo: negative when a ranks first. */
  function Compare(a: MatchResult, b: MatchResult): (c: int)
    ensures c == -1 || c == 0 || c == 1
    ensures c < 0 <==> RanksBefore(a, b)
    ensures c > 0 <==> RanksBefore(b, a)
    ensures c == 0 <==> SameRank(a, b)
  {
    if a.literalCount > b.literalCount then -1
    else if a.literalCount < b.literalCount then 1
    else if a.variableCount > b.variableCount then -1
    else if a.variableCount < b.variableCount then 1
    else IntCompare(b.specificCount, a.specificCount)
  }

  /** The sign of compareTo flips with its arguments, and the order it induces is transitive,
      so the best-ranked result is well defined. */
  lemma CompareIsTotalPreorder(a: MatchResult, b: MatchResult, c: MatchResult)
    ensures Compare(a, b) == -Compare(b, a)
    ensures Compare(a, a) == 0
    ensures Compare(a, b) <= 0 && Compare(b, c) <= 0 ==> Compare(a, c) <= 0
    ensures Compare(a, b) < 0 && Compare(b, c) <= 0 ==> Compare(a, c) < 0
  {
  }

  /** Of two templates matching the same path, the one with more literal characters ranks first. */
  lemma MoreLiteralsRankFirst(t1: Template, t2: Template, path: string)
    requires Match(t1, path).Some? && Match(t2, path).Some?
    requires LiteralCount(t1.tokens) > LiteralCount(t2.tokens)
    ensures Compare(Match(t1, path).value, Match(t2, path).value) < 0
    ensures Compare(Match(t2, path).value, Match(t1, path).value) > 0
  {
    MatchFacts(t1, path);
    MatchFacts(t2, path);
  }

  /** Of two templates matching a path with as many literal characters, the one with more
      variables ranks first, in both argument orders. */
  lemma MoreVariablesRankFirst(t1: Template, t2: Template, path: string)
    requires Match(t1, path).Some? && Match(t2, path).Some?
    requires LiteralCount(t1.tokens) == LiteralCount(t2.tokens)
    requires |Variables(t1.tokens)| > |Variables(t2.tokens)|
    ensures Compare(Match(t1, path).value, Match(t2, path).value) < 0
    ensures Compare(Match(t2, path).value, Match(t1, path).value) > 0
  {
    MatchFacts(t1, path);
    MatchFacts(t2, path);
  }

  /** A value the variable accepts, in front of a text the rest of the template fits, fits the
      template that starts with the variable. */
  lemma FitsAfterVar(name: string, p: Pattern, v: string, ts: seq<Token>, vals: seq<string>, m: string)
    requires Accepts(p, v) && Fits(ts, vals, m)
    ensures Fits([Var(name, p)] + ts, [v] + vals, v + m)
  {
    var ts', vals', m' := [Var(name, p)] + ts, [v] + vals, v + m;
    assert ts'[0] == Var(name, p) && ts'[1..] == ts;
    assert vals'[0] == v && vals'[1..] == vals;
    assert m'[..|v|] == v && m'[|v|..] == m;
  }

  // ---------------------------------------------------------------------------
  // Templates without variables
  // ---------------------------------------------------------------------------

  /** A template of plain literal characters (no variable, no wildcard). */
  predicate Plain(ts: seq<Token>) {
    forall i :: 0 <= i < |ts| ==> ts[i].Lit? && ts[i].c != '.'
  }

  function PlainText(ts: seq<Token>): string
    requires Plain(ts)
  {
    seq(|ts|, i requires 0 <= i < |ts| => ts[i].c)
  }

  /** A variable-free template is a prefix test: the path is the text itself, or the text
      followed by '/' and the rest of the path (which `.*` must cover). */
  lemma {:induction false} PlainMatch(ts: seq<Token>, s: string)
    requires Plain(ts)
    ensures Search(ts, s).Some? <==>
              |ts| <= |s| && s[..|ts|] == PlainText(ts) && SuffixOk(s[|ts|..])
    ensures Search(ts, s).Some? ==> Search(ts, s).value == Hit([], s[|ts|..])
    decreases |ts|
  {
    if ts != [] {
      assert Plain(ts[1..]) by {
        forall i | 0 <= i < |ts[1..]| ensures ts[1..][i].Lit? && ts[1..][i].c != '.' {
          assert ts[1..][i] == ts[i + 1];
        }
      }
      if |s| > 0 && s[0] == ts[0].c {
        PlainMatch(ts[1..], s[1..]);
        if |ts| <= |s| {
          assert s[1..][|ts| - 1..] == s[|ts|..];
          assert s[..|ts|] == [s[0]] + s[1..][..|ts| - 1];
          assert PlainText(ts) == [ts[0].c] + PlainText(ts[1..]);
        }
      } else if |ts| <= |s| {
        assert s[..|ts|][0] == s[0];
      }
    }
  }
  /** Text with no placeholder and no regex syntax: every character stands for itself. */
  predicate PlainTextChars(t: string) {
    forall i :: 0 <= i < |t| ==> t[i] != '{' && t[i] != '.' && !IsRegexMeta(t[i])
  }

  function Texts(t: string): (ps: seq<Piece>)
    ensures |ps| == |t| && forall i :: 0 <= i < |t| ==> ps[i] == Text(t[i])
  {
    seq(|t|, i requires 0 <= i < |t| => Text(t[i]))
  }

  function Lits(t: string): (ts: seq<Token>)
    ensures |ts| == |t| && forall i :: 0 <= i < |t| ==> ts[i] == Lit(t[i])
  {
    seq(|t|, i requires 0 <= i < |t| => Lit(t[i]))
  }

  lemma ScanLiteral(t: string)
    requires |t| > 0 && t[0] != '{'
    ensures Scan(t) == [Text(t[0])] + Scan(t[1..])
  {
    assert PlaceholderAt(t).None?;
  }

  /** A brace-free prefix is scanned character by character. */
  lemma TextsCons(a: string)
    requires |a| > 0
    ensures Texts(a) == [Text(a[0])] + Texts(a[1..])
  {
  }

  lemma ConcatAssoc<T>(x: seq<T>, y: seq<T>, z: seq<T>)
    ensures x + (y + z) == (x + y) + z
  {
  }

  lemma {:induction false} ScanBraceFree(a: string, b: string)
    requires forall i :: 0 <= i < |a| ==> a[i] != '{'
    ensures Scan(a + b) == Texts(a) + Scan(b)
    decreases |a|
  {
    if a == [] {
      assert a + b == b;
    } else {
      var t := a + b;
      assert Scan(t) == [Text(a[0])] + Scan(a[1..] + b) by {
        assert t[0] == a[0];
        assert t[1..] == a[1..] + b;
        ScanLiteral(t);
      }
      assert Scan(a[1..] + b) == Texts(a[1..]) + Scan(b) by {
        ScanBraceFree(a[1..], b);
      }
      TextsCons(a);
      ConcatAssoc([Text(a[0])], Texts(a[1..]), Scan(b));
    }
  }

  lemma {:induction false} TextsToTokens(t: string)
    requires forall i :: 0 <= i < |t| ==> !IsRegexMeta(t[i])
    ensures Names(Texts(t)) == []
    ensures ToTokens(Texts(t)) == Success(Lits(t))
    decreases |t|
  {
    if t != [] {
      assert Texts(t)[1..] == Texts(t[1..]);
      TextsToTokens(t[1..]);
      assert Lits(t) == [Lit(t[0])] + Lits(t[1..]);
    }
  }

  /** A template text without placeholders or regex syntax compiles to its own characters, and
      a path matches it exactly when the path is the text, or the text followed by '/' and a
      rest free of line terminators. */
  lemma VariableFreeTemplate(text: string, path: string)
    requires PlainTextChars(text)
    ensures Compile(text) == Success(Template(Lits(text)))
    ensures Match(Template(Lits(text)), path).Some? <==>
              |text| <= |path| && path[..|text|] == text && SuffixOk(path[|text|..])
    ensures Match(Template(Lits(text)), path).Some? ==>
              && Match(Template(Lits(text)), path).value.matched == text
              && Match(Template(Lits(text)), path).value.remaining ==
                   (if |path| == |text| then None else Some(path[|text|..]))
              && Match(Template(Lits(text)), path).value.parameters == map[]
  {
    ScanBraceFree(text, []);
    assert text + [] == text;
    assert Scan([]) == [];
    assert Texts(text) + [] == Texts(text);
    TextsToTokens(text);
    DistinctIffNoRepeat(Names(Scan(text)));
    PlainMatch(Lits(text), path);
    assert PlainText(Lits(text)) == text;
  }

  /** A default placeholder compiles to a default variable in front of the rest's tokens. */
  lemma ToTokensPlaceholder(name: string, ps: seq<Piece>)
    requires ToTokens(ps).Success?
    ensures ToTokens([Placeholder(name, None)] + ps) == Success([Var(name, Default)] + ToTokens(ps).value)
  {
    assert ([Placeholder(name, None)] + ps)[0] == Placeholder(name, None);
    assert ([Placeholder(name, None)] + ps)[1..] == ps;
  }

  /** A template whose pieces declare no name twice and all compile, compiles to their tokens. */
  lemma CompileOf(text: string, ps: seq<Piece>, ts: seq<Token>)
    requires Scan(text) == ps && Distinct(Names(ps)) && ToTokens(ps) == Success(ts)
    ensures Compile(text) == Success(Template(ts))
  {
    DistinctIffNoRepeat(Names(ps));
  }

  /** A literal character compiles to itself in front of the tokens of what follows. */
  lemma ToTokensText(c: char, ps: seq<Piece>)
    requires !IsRegexMeta(c)
    ensures ToTokens([Text(c)] + ps).Success? <==> ToTokens(ps).Success?
    ensures ToTokens(ps).Success? ==> ToTokens([Text(c)] + ps).value == [Lit(c)] + ToTokens(ps).value
  {
    assert ([Text(c)] + ps)[0] == Text(c);
    assert ([Text(c)] + ps)[1..] == ps;
  }

  /** Compiling literal text in front of other pieces prefixes the literals to their tokens. */
  lemma {:induction false} TextsThenTokens(t: string, ps: seq<Piece>)
    requires forall i :: 0 <= i < |t| ==> !IsRegexMeta(t[i])
    ensures ToTokens(Texts(t) + ps).Success? <==> ToTokens(ps).Success?
    ensures ToTokens(ps).Success? ==> ToTokens(Texts(t) + ps).value == Lits(t) + ToTokens(ps).value
    decreases |t|
  {
    if t == [] {
      assert Texts(t) + ps == ps;
    } else {
      var rest := Texts(t[1..]) + ps;
      assert Texts(t) + ps == [Text(t[0])] + rest by {
        TextsCons(t);
        ConcatAssoc([Text(t[0])], Texts(t[1..]), ps);
      }
      TextsThenTokens(t[1..], ps);
      ToTokensText(t[0], rest);
      if ToTokens(ps).Success? {
        var x := ToTokens(ps).value;
        assert ToTokens(rest).value == Lits(t[1..]) + x;
        assert Lits(t) == [Lit(t[0])] + Lits(t[1..]);
        ConcatAssoc([Lit(t[0])], Lits(t[1..]), x);
      }
    }
  }

  /** A split fits literals followed by more tokens exactly when it starts with the literal
      text and the rest fits the remaining tokens. */
  lemma {:induction false} FitsAfterLits(t: string, ts: seq<Token>, vals: seq<string>, m: string)
    requires PlainTextChars(t)
    ensures Fits(Lits(t) + ts, vals, m) <==> |t| <= |m| && m[..|t|] == t && Fits(ts, vals, m[|t|..])
    decreases |t|
  {
    if t == [] {
      assert Lits(t) + ts == ts;
    } else {
      var all := Lits(t) + ts;
      assert all[0] == Lit(t[0]);
      assert all[1..] == Lits(t[1..]) + ts;
      assert PlainTextChars(t[1..]) by {
        forall i | 0 <= i < |t[1..]| ensures t[1..][i] == t[i + 1] { }
      }
      if |m| > 0 {
        FitsAfterLits(t[1..], ts, vals, m[1..]);
        assert Fits(all, vals, m) <==> m[0] == t[0] && Fits(all[1..], vals, m[1..]);
        if |t| <= |m| {
          assert m[1..][|t| - 1..] == m[|t|..];
          PrefixCons(m, |t|);
          assert t == [t[0]] + t[1..];
        }
      }
    }
  }

  /** Literal text in front of tokens fits that same text in front of what the tokens fit. */
  lemma FitsLitsBefore(t: string, ts: seq<Token>, vals: seq<string>, m: string)
    requires PlainTextChars(t) && Fits(ts, vals, m)
    ensures Fits(Lits(t) + ts, vals, t + m)
  {
    FitsAfterLits(t, ts, vals, t + m);
    assert (t + m)[..|t|] == t && (t + m)[|t|..] == m;
  }

  /** Literal text in front of tokens adds its characters to the literal count and declares
      nothing. */
  lemma {:induction false} LitsThenCounts(t: string, ts: seq<Token>)
    ensures Variables(Lits(t) + ts) == Variables(ts)
    ensures Patterns(Lits(t) + ts) == Patterns(ts)
    ensures SpecificCount(Lits(t) + ts) == SpecificCount(ts)
    ensures LiteralCount(Lits(t) + ts) == |t| + LiteralCount(ts)
    decreases |t|
  {
    if t == [] {
      assert Lits(t) + ts == ts;
    } else {
      assert Lits(t) + ts == [Lit(t[0])] + (Lits(t[1..]) + ts);
      TokensCons(Lit(t[0]), Lits(t[1..]) + ts);
      LitsThenCounts(t[1..], ts);
    }
  }

  /** A variable-free template matches its own text whole. */
  lemma PlainTemplateMatchesItself(text: string)
    requires PlainTextChars(text)
    ensures Match(Template(Lits(text)), text).Some?
    ensures Match(Template(Lits(text)), text).value.matched == text
    ensures Match(Template(Lits(text)), text).value.remaining.None?
  {
    VariableFreeTemplate(text, text);
    assert text[..|text|] == text;
    assert text[|text|..] == [];
  }

  /** Text followed by one variable matches the text followed by a value the variable accepts. */
  lemma TrailingVariableMatches(text: string, name: string, p: Pattern, v: string)
    requires PlainTextChars(text) && Accepts(p, v)
    ensures Match(Template(Lits(text) + [Var(name, p)]), text + v).Some?
  {
    var ts := Lits(text) + [Var(name, p)];
    var path := text + v;
    assert Fits([Var(name, p)], [v], v) by {
      assert v[..|v|] == v && v[|v|..] == [];
      assert [Var(name, p)][1..] == [] && [v][1..] == [];
    }
    FitsAfterLits(text, [Var(name, p)], [v], path);
    assert path[..|text|] == text && path[|text|..] == v;
    assert Fits(ts, [v], path[..|path|]) by { assert path[..|path|] == path; }
    assert SuffixOk(path[|path|..]);
    MatchIffSplit(Template(ts), path);
  }

  /** A match of text followed by one variable is the text followed by the one captured value. */
  lemma TrailingVariableShape(text: string, name: string, p: Pattern, path: string)
    requires PlainTextChars(text)
    requires Match(Template(Lits(text) + [Var(name, p)]), path).Some?
    ensures var r := Match(Template(Lits(text) + [Var(name, p)]), path).value;
            |r.values| == 1 && r.matched == text + r.values[0]
  {
    var r := Match(Template(Lits(text) + [Var(name, p)]), path).value;
    FitsAfterLits(text, [Var(name, p)], r.values, r.matched);
    var w := r.values[0];
    assert r.matched[|text|..][|w|..] == [];
    assert r.matched == text + w by {
      assert r.matched[|text|..] == w;
      assert r.matched == r.matched[..|text|] + r.matched[|text|..];
    }
  }

  /** The template `text{name}` (or `text{name:pattern}`) on text followed by one segment v
      that the variable accepts: the whole path is matched, nothing remains, and the variable
      is bound to v. */
  lemma TrailingVariable(text: string, name: string, p: Pattern, v: string)
    requires PlainTextChars(text) && Accepts(p, v)
    requires forall i :: 0 <= i < |v| ==> v[i] != '/'
    ensures var r := Match(Template(Lits(text) + [Var(name, p)]), text + v);
            && r.Some?
            && r.value.matched == text + v
            && r.value.remaining.None?
            && r.value.values == [v]
            && r.value.parameters == map[name := v]
  {
    var ts := Lits(text) + [Var(name, p)];
    var t := Template(ts);
    var path := text + v;
    TrailingVariableMatches(text, name, p, v);
    TrailingVariableShape(text, name, p, path);
    var r := Match(t, path).value;
    var w := r.values[0];
    assert r.values == [w];
    assert r.matched + r.remaining.GetOr("") == path;
    if r.remaining.Some? {
      assert false;
    }
    assert w == v by {
      assert (text + w)[|text|..] == w;
      assert (text + v)[|text|..] == v;
    }
    MatchFacts(t, path);
    LitsThenCounts(text, [Var(name, p)]);
    TokensCons(Var(name, p), []);
    assert Variables(ts) == [name];
    assert r.parameters.Keys == {name};
  }
}
