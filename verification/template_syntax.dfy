/** The text syntax of a path template: literal characters interleaved with placeholders
    `{name}` or `{name:pattern}`, where a name is `\w[\w.-]*` and a pattern is `[^{}]*`
    (PathTemplate.PathVariables.VARIABLE), and the one-or-more character classes that the
    model accepts as explicit variable patterns. */
module TemplateSyntax {
  import opened Wrappers

  /** `\w` of java.util.regex without the UNICODE_CHARACTER_CLASS flag. */
  predicate IsWordChar(c: char) {
    ('a' <= c <= 'z') || ('A' <= c <= 'Z') || ('0' <= c <= '9') || c == '_'
  }

  /** `[\w.-]`: the characters allowed after the first one of a variable name. */
  predicate IsNameChar(c: char) {
    IsWordChar(c) || c == '.' || c == '-'
  }

  /** `[^{}]`: the characters allowed in a variable's pattern text. */
  predicate IsPatternChar(c: char) {
    c != '{' && c != '}'
  }

  predicate ValidName(n: string) {
    |n| > 0 && IsWordChar(n[0]) && forall i :: 0 < i < |n| ==> IsNameChar(n[i])
  }

  predicate ValidPatternText(q: string) {
    forall i :: 0 <= i < |q| ==> IsPatternChar(q[i])
  }

  /** All elements are pairwise different. */
  predicate Distinct<T(==)>(s: seq<T>) {
    forall i, j :: 0 <= i < j < |s| ==> s[i] != s[j]
  }

  /** The length of the longest prefix of s made of name characters. */
  function NameRun(s: string): (n: nat)
    ensures n <= |s|
    ensures forall i :: 0 <= i < n ==> IsNameChar(s[i])
    ensures n < |s| ==> !IsNameChar(s[n])
  {
    if s == [] || !IsNameChar(s[0]) then 0 else 1 + NameRun(s[1..])
  }

  /** The length of the longest prefix of s made of pattern characters. */
  function PatternRun(s: string): (n: nat)
    ensures n <= |s|
    ensures forall i :: 0 <= i < n ==> IsPatternChar(s[i])
    ensures n < |s| ==> !IsPatternChar(s[n])
  {
    if s == [] || !IsPatternChar(s[0]) then 0 else 1 + PatternRun(s[1..])
  }

  /** A template text is a sequence of literal characters and placeholders. */
  datatype Piece = Text(c: char) | Placeholder(name: string, pattern: Option<string>)

  predicate WellFormed(p: Piece) {
    p.Placeholder? ==> ValidName(p.name) && (p.pattern.Some? ==> ValidPatternText(p.pattern.value))
  }

  /** The text a piece was read from. */
  function Render(p: Piece): string {
    match p
    case Text(c) => [c]
    case Placeholder(n, None) => "{" + n + "}"
    case Placeholder(n, Some(q)) => "{" + n + ":" + q + "}"
  }

  function RenderAll(ps: seq<Piece>): string {
    if ps == [] then "" else Render(ps[0]) + RenderAll(ps[1..])
  }

  /** The placeholder that the VARIABLE regex matches at the start of t, with the number of
      characters it spans. The name is greedy and cannot give characters back usefully, so the
      match is unique: `}` right after the name, or `:` then the longest brace-free run then `}`. */
  function PlaceholderAt(t: string): (r: Option<(Piece, nat)>)
    ensures r.Some? ==> r.value.0.Placeholder? && WellFormed(r.value.0)
    ensures r.Some? ==> 0 < r.value.1 <= |t| && Render(r.value.0) == t[..r.value.1]
  {
    if |t| < 2 || t[0] != '{' || !IsWordChar(t[1]) then None
    else
      NameRunIsName(t);
      PlaceholderAfterName(t, 2 + NameRun(t[2..]))
  }

  /** The rest of the placeholder once its name ends before position j. */
  function PlaceholderAfterName(t: string, j: nat): (r: Option<(Piece, nat)>)
    requires 2 <= j <= |t| && t[0] == '{' && ValidName(t[1..j])
    ensures r.Some? ==> r.value.0.Placeholder? && WellFormed(r.value.0)
    ensures r.Some? ==> 0 < r.value.1 <= |t| && Render(r.value.0) == t[..r.value.1]
  {
    if j < |t| && t[j] == '}' then
      PlainPlaceholderText(t, j);
      Some((Placeholder(t[1..j], None), j + 1))
    else if j < |t| && t[j] == ':' then
      var e := j + 1 + PatternRun(t[j + 1..]);
      if e < |t| && t[e] == '}' then
        PatternRunIsPattern(t, j + 1);
        PatternPlaceholderText(t, j, e);
        Some((Placeholder(t[1..j], Some(t[j + 1..e])), e + 1))
      else None
    else None
  }

  /** The name run after an opening brace and a word character is a valid name. */
  lemma NameRunIsName(t: string)
    requires |t| >= 2 && IsWordChar(t[1])
    ensures ValidName(t[1..2 + NameRun(t[2..])])
  {
    var name := t[1..2 + NameRun(t[2..])];
    forall i | 0 < i < |name| ensures IsNameChar(name[i]) {
      assert name[i] == t[2..][i - 1];
    }
  }

  /** A pattern run is valid pattern text. */
  lemma PatternRunIsPattern(t: string, k: nat)
    requires k <= |t|
    ensures ValidPatternText(t[k..k + PatternRun(t[k..])])
  {
    var q := t[k..k + PatternRun(t[k..])];
    forall i | 0 <= i < |q| ensures IsPatternChar(q[i]) {
      assert q[i] == t[k..][i];
    }
  }

  lemma PlainPlaceholderText(t: string, j: nat)
    requires 1 <= j < |t| && t[0] == '{' && t[j] == '}'
    ensures t[..j + 1] == "{" + t[1..j] + "}"
  {
  }

  lemma PatternPlaceholderText(t: string, j: nat, e: nat)
    requires 1 <= j < e < |t| && t[0] == '{' && t[j] == ':' && t[e] == '}'
    ensures t[..e + 1] == "{" + t[1..j] + ":" + t[j + 1..e] + "}"
  {
  }

  /** PathVariables.template: reads t from left to right, taking the placeholder that starts at
      each position when there is one and a literal character otherwise (Matcher.replaceAll). */
  function Scan(t: string): (ps: seq<Piece>)
    ensures RenderAll(ps) == t
    ensures forall i :: 0 <= i < |ps| ==> WellFormed(ps[i])
    decreases |t|
  {
    if t == [] then []
    else
      var (p, n) := match PlaceholderAt(t)
        case Some(found) => found
        case None => (Text(t[0]), 1);
      var rest := Scan(t[n..]);
      ScanStep(t, p, n, rest);
      [p] + rest
  }

  lemma RenderCons(p: Piece, rest: seq<Piece>)
    ensures RenderAll([p] + rest) == Render(p) + RenderAll(rest)
  {
    assert ([p] + rest)[1..] == rest;
  }

  /** A piece read off the front of t followed by the pieces of the rest renders as t. */
  lemma ScanStep(t: string, p: Piece, n: nat, rest: seq<Piece>)
    requires 0 < n <= |t| && Render(p) == t[..n] && WellFormed(p)
    requires RenderAll(rest) == t[n..] && forall i :: 0 <= i < |rest| ==> WellFormed(rest[i])
    ensures RenderAll([p] + rest) == t
    ensures forall i :: 0 <= i < |[p] + rest| ==> WellFormed(([p] + rest)[i])
  {
    RenderCons(p, rest);
    assert t == t[..n] + t[n..];
  }

  lemma ScanSame(a: string, b: string)
    requires a == b
    ensures Scan(a) == Scan(b)
  {
  }

  /** NameRun stops exactly at the end of a run of name characters. */
  lemma {:induction false} NameRunOf(a: string, b: string)
    requires forall i :: 0 <= i < |a| ==> IsNameChar(a[i])
    requires b == [] || !IsNameChar(b[0])
    ensures NameRun(a + b) == |a|
    decreases |a|
  {
    if a != [] {
      assert (a + b)[0] == a[0];
      assert (a + b)[1..] == a[1..] + b;
      NameRunOf(a[1..], b);
    } else {
      assert a + b == b;
    }
  }

  /** PatternRun stops exactly at the end of a brace-free run. */
  lemma {:induction false} PatternRunOf(a: string, b: string)
    requires ValidPatternText(a)
    requires b == [] || !IsPatternChar(b[0])
    ensures PatternRun(a + b) == |a|
    decreases |a|
  {
    if a != [] {
      assert (a + b)[0] == a[0];
      assert (a + b)[1..] == a[1..] + b;
      PatternRunOf(a[1..], b);
    } else {
      assert a + b == b;
    }
  }

  /** The name part of a placeholder: `{`, then the name, then a character that cannot
      continue a name. */
  lemma NameAt(name: string, after: string)
    requires ValidName(name) && |after| > 0 && !IsNameChar(after[0])
    ensures var t := "{" + name + after;
            && |t| >= 2 && t[0] == '{' && IsWordChar(t[1])
            && 2 + NameRun(t[2..]) == |name| + 1
            && t[1..|name| + 1] == name
            && t[|name| + 1..] == after
  {
    var t := "{" + name + after;
    assert t[2..] == name[1..] + after;
    NameRunOf(name[1..], after);
  }

  /** Reading back a rendered placeholder gives the placeholder and its length, whatever
      follows it: the placeholder regex and the rendering are inverse to each other. */
  lemma PlaceholderRoundTrip(p: Piece, rest: string)
    requires p.Placeholder? && WellFormed(p)
    ensures PlaceholderAt(Render(p) + rest) == Some((p, |Render(p)|))
  {
    if p.pattern.None? {
      PlainPlaceholderRoundTrip(p.name, rest);
    } else {
      PatternPlaceholderRoundTrip(p, rest);
    }
  }

  lemma PlainPlaceholderRoundTrip(name: string, rest: string)
    requires ValidName(name)
    ensures PlaceholderAt("{" + name + "}" + rest) == Some((Placeholder(name, None), |name| + 2))
  {
    var after := "}" + rest;
    assert "{" + name + "}" + rest == "{" + name + after;
    NameAt(name, after);
  }

  lemma PatternPlaceholderRoundTrip(p: Piece, rest: string)
    requires p.Placeholder? && p.pattern.Some? && WellFormed(p)
    ensures PlaceholderAt(Render(p) + rest) == Some((p, |Render(p)|))
  {
    var name, q := p.name, p.pattern.value;
    var after := ":" + q + "}" + rest;
    var t := "{" + name + after;
    PatternPlaceholderLayout("{", name, ":", q, "}", rest);
    assert after[0] == ':';
    NameAt(name, after);
    var j := |name| + 1;
    assert t[j..] == after;
    assert t[j] == ':';
    PatternAt(t, j, q, rest);
    PatternPlaceholderAt(t, name, q, j, j + 1 + |q|, |Render(p)|);
    PlaceholderAtSame(t, Render(p) + rest);
  }

  lemma PlaceholderAtSame(t: string, u: string)
    requires t == u
    ensures PlaceholderAt(u) == PlaceholderAt(t)
  {
  }

  /** Regrouping the pieces of a rendered pattern placeholder followed by more text. */
  lemma PatternPlaceholderLayout(a: string, b: string, c: string, d: string, e: string, f: string)
    ensures a + b + c + d + e + f == a + b + (c + d + e + f)
  {
  }

  /** The pattern branch of PlaceholderAt, read off the positions of its delimiters. */
  lemma PatternPlaceholderAt(t: string, name: string, q: string, j: nat, e: nat, len: nat)
    requires |t| >= 2 && t[0] == '{' && IsWordChar(t[1])
    requires 2 + NameRun(t[2..]) == j && j < |t| && t[1..j] == name && t[j] == ':'
    requires j + 1 + PatternRun(t[j + 1..]) == e && e < |t| && t[e] == '}' && t[j + 1..e] == q
    requires len == e + 1
    ensures PlaceholderAt(t) == Some((Placeholder(name, Some(q)), len))
  {
    NameEnds(t);
    PatternAfterName(t, name, q, j, e, len);
  }

  /** Past the opening brace and the first name character, the placeholder continues where
      the name run ends. */
  lemma NameEnds(t: string)
    requires |t| >= 2 && t[0] == '{' && IsWordChar(t[1])
    ensures ValidName(t[1..2 + NameRun(t[2..])])
    ensures PlaceholderAt(t) == PlaceholderAfterName(t, 2 + NameRun(t[2..]))
  {
    NameRunIsName(t);
  }

  lemma PatternAfterName(t: string, name: string, q: string, j: nat, e: nat, len: nat)
    requires 2 <= j < |t| && t[0] == '{' && ValidName(t[1..j]) && t[1..j] == name && t[j] == ':'
    requires j + 1 + PatternRun(t[j + 1..]) == e && e < |t| && t[e] == '}' && t[j + 1..e] == q
    requires len == e + 1
    ensures PlaceholderAfterName(t, j) == Some((Placeholder(name, Some(q)), len))
  {
    assert t[j] != '}';
  }

  /** The pattern part of a placeholder: after the `:` at j, the brace-free q and then `}`. */
  lemma PatternAt(t: string, j: nat, q: string, rest: string)
    requires ValidPatternText(q)
    requires j < |t| && t[j..] == ":" + q + "}" + rest
    ensures var e := j + 1 + PatternRun(t[j + 1..]);
            && e == j + 1 + |q| && e < |t| && t[e] == '}' && t[j + 1..e] == q
  {
    assert t[j + 1..] == t[j..][1..];
    assert t[j..][1..] == q + ("}" + rest);
    PatternRunOf(q, "}" + rest);
    var e := j + 1 + |q|;
    assert t[e] == t[j..][|q| + 1];
    assert t[j + 1..e] == t[j + 1..][..|q|];
  }

  /** A template text that starts with a placeholder is scanned as that placeholder followed by
      the scan of the rest. */
  lemma ScanPlaceholder(p: Piece, rest: string)
    requires p.Placeholder? && WellFormed(p)
    ensures Scan(Render(p) + rest) == [p] + Scan(rest)
  {
    PlaceholderRoundTrip(p, rest);
    assert (Render(p) + rest)[|Render(p)|..] == rest;
  }

  /** The declared variable names, in the order they appear. */
  function Names(ps: seq<Piece>): seq<string> {
    if ps == [] then []
    else if ps[0].Placeholder? then [ps[0].name] + Names(ps[1..])
    else Names(ps[1..])
  }

  lemma {:induction false} NamesAppend(a: seq<Piece>, b: seq<Piece>)
    ensures Names(a + b) == Names(a) + Names(b)
    decreases |a|
  {
    if a == [] {
      assert a + b == b;
    } else {
      assert (a + b)[0] == a[0];
      assert (a + b)[1..] == a[1..] + b;
      NamesAppend(a[1..], b);
    }
  }

  /** How many placeholders carry an explicit pattern. */
  function ExplicitCount(ps: seq<Piece>): nat {
    if ps == [] then 0
    else (if ps[0].Placeholder? && ps[0].pattern.Some? then 1 else 0) + ExplicitCount(ps[1..])
  }

  // ---------------------------------------------------------------------------
  // Explicit patterns: the model accepts `[items]+` and `[^items]+`, where an item
  // is a single character or a range `a-z`.
  // ---------------------------------------------------------------------------

  datatype ClassItem = Single(c: char) | Range(lo: char, hi: char)

  datatype CharClass = CharClass(negated: bool, items: seq<ClassItem>)

  predicate Covers(item: ClassItem, c: char) {
    match item
    case Single(x) => c == x
    case Range(lo, hi) => lo <= c <= hi
  }

  predicate InClass(k: CharClass, c: char) {
    k.negated != (exists i :: 0 <= i < |k.items| && Covers(k.items[i], c))
  }

  /** Characters that may stand for themselves inside a class in the modelled fragment. `$` and
      `\\` are out: the pattern text becomes a replacement string of Matcher.replaceAll, which
      reads them as a group reference and an escape. */
  predicate IsClassChar(c: char) {
    c !in {'[', ']', '\\', '&', '-', '^', '$'}
  }

  function RenderItems(items: seq<ClassItem>): string {
    if items == [] then ""
    else
      (match items[0]
       case Single(c) => [c]
       case Range(lo, hi) => [lo, '-', hi]) + RenderItems(items[1..])
  }

  function RenderClass(k: CharClass): string {
    "[" + (if k.negated then "^" else "") + RenderItems(k.items) + "]+"
  }

  /** Reads the items of a class body; ranges must be ascending, as java.util.regex demands. */
  function ParseItems(b: string): (r: Option<seq<ClassItem>>)
    ensures r.Some? ==> RenderItems(r.value) == b
    ensures r.Some? ==> forall i :: 0 <= i < |r.value| && r.value[i].Range? ==> r.value[i].lo <= r.value[i].hi
    ensures r.Some? ==> '$' !in b && '\\' !in b
    decreases |b|
  {
    if b == [] then Some([])
    else if !IsClassChar(b[0]) then None
    else if |b| >= 2 && b[1] == '-' then
      if |b| >= 3 && IsClassChar(b[2]) && b[0] <= b[2] then
        match ParseItems(b[3..])
        case Some(rest) =>
          assert ([Range(b[0], b[2])] + rest)[1..] == rest;
          assert b == [b[0], '-', b[2]] + b[3..];
          Some([Range(b[0], b[2])] + rest)
        case None => None
      else None
    else
      match ParseItems(b[1..])
      case Some(rest) =>
        assert ([Single(b[0])] + rest)[1..] == rest;
        assert b == [b[0]] + b[1..];
        Some([Single(b[0])] + rest)
      case None => None
  }

  /** A text of the shape "[…]+" is its body between the bracket and "]+". */
  lemma ClassTextSplit(q: string)
    requires |q| >= 3 && q[0] == '[' && q[|q| - 2..] == "]+"
    ensures q == "[" + q[1..|q| - 2] + "]+"
  {
    assert q == q[..1] + q[1..|q| - 2] + q[|q| - 2..];
  }

  /** A body is its optional leading '^' followed by the item text. */
  lemma BodySplit(body: string, negated: bool)
    requires negated ==> |body| > 0 && body[0] == '^'
    ensures body == (if negated then "^" else "") + (if negated then body[1..] else body)
  {
    if negated {
      assert body == [body[0]] + body[1..];
    }
  }

  /** The rendering of a class whose items render as the item text of q. */
  lemma RenderClassOf(negated: bool, items: seq<ClassItem>, itemText: string, body: string, q: string)
    requires RenderItems(items) == itemText && itemText != []
    requires body == (if negated then "^" else "") + itemText
    requires q == "[" + body + "]+"
    ensures RenderClass(CharClass(negated, items)) == q && |items| > 0
  {
    assert items != [];
    var caret := if negated then "^" else "";
    Regroup("[", caret, itemText, "]+");
    assert RenderClass(CharClass(negated, items)) == "[" + caret + itemText + "]+";
  }

  lemma Regroup(a: string, b: string, c: string, d: string)
    ensures a + b + c + d == a + (b + c) + d
  {
  }

  /** The character class an explicit pattern text denotes, when the text is in the modelled
      fragment; None otherwise. */
  function ParseClass(q: string): (r: Option<CharClass>)
    ensures r.Some? ==> RenderClass(r.value) == q && |r.value.items| > 0
    ensures r.Some? ==> '$' !in q && '\\' !in q
  {
    if |q| < 3 || q[0] != '[' || q[|q| - 2..] != "]+" then None
    else
      var body := q[1..|q| - 2];
      var negated := |body| > 0 && body[0] == '^';
      var itemText := if negated then body[1..] else body;
      if itemText == [] then None
      else
        match ParseItems(itemText)
        case Some(items) =>
          ClassTextSplit(q);
          BodySplit(body, negated);
          RenderClassOf(negated, items, itemText, body, q);
          Some(CharClass(negated, items))
        case None => None
  }
}
