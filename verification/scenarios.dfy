/** Concrete instances of the template properties, on the templates and paths the
    repository's own PathTemplate tests use. */
module Scenarios {
  import opened Wrappers
  import opened TemplateSyntax
  import opened UriTemplate

  const Users: string := "/users"

  lemma UsersIsPlain()
    ensures PlainTextChars(Users)
  {
  }

  /** "/users" compiles to its six literal characters. */
  lemma UsersCompiles()
    ensures Compile(Users) == Success(Template(Lits(Users)))
  {
    UsersIsPlain();
    VariableFreeTemplate(Users, Users);
  }

  /** "/users" rejects "/orders". */
  lemma UsersRejectsOrders()
    ensures Match(Template(Lits(Users)), "/orders").None?
  {
    UsersIsPlain();
    PlainMismatch(Users, "/orders", 1);
  }

  /** "/users" is anchored at the start: it rejects "/unit/users". */
  lemma UsersRejectsLongerPrefix()
    ensures Match(Template(Lits(Users)), "/unit/users").None?
  {
    UsersIsPlain();
    PlainMismatch(Users, "/unit/users", 2);
  }

  /** A variable-free template rejects a path that differs from its text at some position. */
  lemma PlainMismatch(text: string, path: string, k: nat)
    requires PlainTextChars(text) && k < |text| && k < |path| && path[k] != text[k]
    ensures Match(Template(Lits(text)), path).None?
  {
    VariableFreeTemplate(text, path);
    if |text| <= |path| {
      assert path[..|text|][k] == path[k];
    }
  }

  /** A variable-free template on its text followed by a `/...` remainder. */
  lemma PlainPrefixMatch(text: string, rest: string)
    requires PlainTextChars(text) && |rest| > 0 && SuffixOk(rest)
    ensures var r := Match(Template(Lits(text)), text + rest);
            r.Some? && r.value.matched == text && r.value.remaining == Some(rest) && r.value.parameters == map[]
  {
    VariableFreeTemplate(text, text + rest);
    assert (text + rest)[..|text|] == text;
    assert (text + rest)[|text|..] == rest;
  }

  /** "/users" matches "/users/1", leaving "/1" to the sub-resources and binding nothing. */
  lemma UsersMatchesChild()
    ensures var r := Match(Template(Lits(Users)), "/users/1");
            r.Some? && r.value.matched == "/users" && r.value.remaining == Some("/1") && r.value.parameters == map[]
  {
    UsersIsPlain();
    assert SuffixOk("/1");
    PlainPrefixMatch(Users, "/1");
    assert Users + "/1" == "/users/1";
  }

  const IdDigits: Piece := Placeholder("id", Some("[0-9]+"))
  const Id: Piece := Placeholder("id", None)

  lemma ScanId()
    ensures Scan("/{id}") == [Text('/'), Id]
  {
    assert WellFormed(Id);
    ScanPlaceholder(Id, "");
    assert Render(Id) + "" == "{id}";
    ScanLiteral("/{id}");
    assert "/{id}"[1..] == "{id}";
  }

  lemma IdDigitsWellFormed()
    ensures WellFormed(IdDigits)
  {
    var q := "[0-9]+";
    forall k | 0 <= k < |q| ensures IsPatternChar(q[k]) {
    }
  }

  lemma RenderIdDigits()
    ensures Render(IdDigits) + "/{id}" == "{id:[0-9]+}/{id}"
  {
  }

  /** A well-formed placeholder followed by text whose scan is known. */
  lemma ScanPlaceholderThen(p: Piece, rest: string, ps: seq<Piece>)
    requires p.Placeholder? && WellFormed(p) && Scan(rest) == ps
    ensures Scan(Render(p) + rest) == [p] + ps
  {
    ScanPlaceholder(p, rest);
  }

  lemma ScanIdDigits()
    ensures Scan("{id:[0-9]+}/{id}") == [IdDigits, Text('/'), Id]
  {
    ScanRenderedIdDigits();
    RenderIdDigits();
    ScanSame(Render(IdDigits) + "/{id}", "{id:[0-9]+}/{id}");
  }

  lemma ScanRenderedIdDigits()
    ensures Scan(Render(IdDigits) + "/{id}") == [IdDigits, Text('/'), Id]
  {
    IdDigitsWellFormed();
    ScanId();
    ScanPlaceholderThen(IdDigits, "/{id}", [Text('/'), Id]);
    assert [IdDigits] + [Text('/'), Id] == [IdDigits, Text('/'), Id];
  }

  /** Plain text in front of a template adds no variable names. */
  lemma NamesAfterPlainPrefix(a: string, tail: string)
    requires PlainTextChars(a)
    ensures Names(Scan(a + tail)) == Names(Scan(tail))
  {
    ScanBraceFree(a, tail);
    TextsToTokens(a);
    NamesAppend(Texts(a), Scan(tail));
  }

  lemma NamesOfTail()
    ensures Names(Scan("{id:[0-9]+}/{id}")) == ["id", "id"]
  {
    ScanIdDigits();
    var ps := [IdDigits, Text('/'), Id];
    assert ps[1..] == [Text('/'), Id];
    assert ps[1..][1..] == [Id];
    assert ps[1..][1..][1..] == [];
  }

  lemma UsersSlashIsPlain()
    ensures PlainTextChars("/users/")
  {
  }

  lemma ScanRedefined()
    ensures Names(Scan("/users/{id:[0-9]+}/{id}")) == ["id", "id"]
  {
    var tail := "{id:[0-9]+}/{id}";
    assert "/users/" + tail == "/users/{id:[0-9]+}/{id}";
    UsersSlashIsPlain();
    NamesAfterPlainPrefix("/users/", tail);
    NamesOfTail();
  }

  /** Explicit patterns holding `$` are not classes: Matcher.replaceAll throws on `[a$]+` and
      rewrites `[$1]+`, so neither stands for the class it spells. */
  lemma DollarPatternsRejected()
    ensures ParseClass("[a$]+").None? && ParseClass("[$1]+").None?
  {
    assert "[a$]+"[2] == '$';
    assert "[$1]+"[1] == '$';
  }

  /** "/users/{id:[0-9]+}/{id}" declares id twice and is rejected for it. */
  lemma RedefinedVariableRejected()
    ensures Compile("/users/{id:[0-9]+}/{id}") == Failure(DuplicateVariable("id"))
  {
    ScanRedefined();
    var names := Names(Scan("/users/{id:[0-9]+}/{id}"));
    assert !Distinct(names) by { assert names[0] == names[1]; }
  }

  const Digits: CharClass := CharClass(false, [Range('0', '9')])
  const UsersSlash: string := "/users/"

  /** "[0-9]+" is the one-range class of the digits. */
  lemma DigitsClass()
    ensures ParseClass("[0-9]+") == Some(Digits)
  {
    var q := "[0-9]+";
    assert q[|q| - 2..] == "]+";
    assert q[1..|q| - 2] == "0-9";
    assert ParseItems("0-9") == Some([Range('0', '9')]) by {
      var b := "0-9";
      assert |b| >= 3 && b[1] == '-' && IsClassChar(b[0]) && IsClassChar(b[2]) && b[0] <= b[2];
      assert b[3..] == [];
      assert ParseItems([]) == Some([]);
      assert [Range(b[0], b[2])] + [] == [Range('0', '9')];
    }
  }

  lemma UsersSlashPlain()
    ensures PlainTextChars(UsersSlash)
  {
  }

  /** Plain text followed by one placeholder scans as the text's characters and the placeholder. */
  lemma ScanTextThenPlaceholder(text: string, p: Piece)
    requires PlainTextChars(text) && p.Placeholder? && WellFormed(p)
    ensures Scan(text + Render(p)) == Texts(text) + [p]
  {
    ScanBraceFree(text, Render(p));
    ScanPlaceholder(p, "");
    assert Render(p) + "" == Render(p);
    assert Scan("") == [];
  }

  lemma RenderUsersId()
    ensures UsersSlash + Render(Id) == "/users/{id}"
  {
  }

  lemma RenderUsersIdDigits()
    ensures UsersSlash + Render(IdDigits) == "/users/{id:[0-9]+}"
  {
  }

  /** The pieces of "/users/{id}". */
  lemma ScanUsersId()
    ensures Scan("/users/{id}") == Texts(UsersSlash) + [Id]
  {
    UsersSlashPlain();
    assert WellFormed(Id);
    ScanTextThenPlaceholder(UsersSlash, Id);
    RenderUsersId();
  }

  /** The pieces of "/users/{id:[0-9]+}". */
  lemma ScanUsersIdDigits()
    ensures Scan("/users/{id:[0-9]+}") == Texts(UsersSlash) + [IdDigits]
  {
    UsersSlashPlain();
    IdDigitsWellFormed();
    ScanTextThenPlaceholder(UsersSlash, IdDigits);
    RenderUsersIdDigits();
  }

  /** A template whose pieces are plain text and then one placeholder compiles to the text's
      literals followed by the placeholder's token. */
  lemma CompileTextThenPlaceholder(template: string, prefix: string, p: Piece, tok: Token)
    requires PlainTextChars(prefix) && p.Placeholder?
    requires Scan(template) == Texts(prefix) + [p]
    requires ToTokens([p]) == Success([tok])
    ensures Compile(template) == Success(Template(Lits(prefix) + [tok]))
  {
    TextsToTokens(prefix);
    NamesAppend(Texts(prefix), [p]);
    assert Names([p]) == [p.name] by { assert [p][1..] == []; }
    assert FirstRepeat([p.name], 0) == None by { assert [p.name][..0] == []; }
    TextsThenTokens(prefix, [p]);
  }

  const IdVar: Token := Var("id", Default)
  const IdDigitsVar: Token := Var("id", Explicit(Digits))

  /** "/users/{id}" compiles to "/users/" and a default variable id. */
  lemma UsersIdCompiles()
    ensures Compile("/users/{id}") == Success(Template(Lits(UsersSlash) + [IdVar]))
  {
    UsersSlashPlain();
    ScanUsersId();
    assert ToTokens([Id]) == Success([IdVar]) by {
      assert [Id][0] == Id && [Id][1..] == [];
      assert ToTokens([]) == Success([]);
      assert [IdVar] + [] == [IdVar];
    }
    CompileTextThenPlaceholder("/users/{id}", UsersSlash, Id, IdVar);
  }

  /** "/users/{id:[0-9]+}" compiles to "/users/" and a digits variable id. */
  lemma UsersIdDigitsCompiles()
    ensures Compile("/users/{id:[0-9]+}") == Success(Template(Lits(UsersSlash) + [IdDigitsVar]))
  {
    UsersSlashPlain();
    ScanUsersIdDigits();
    DigitsClass();
    assert ToTokens([IdDigits]) == Success([IdDigitsVar]) by {
      assert [IdDigits][0] == IdDigits && [IdDigits][1..] == [];
      assert ToTokens([]) == Success([]);
      assert [IdDigitsVar] + [] == [IdDigitsVar];
    }
    CompileTextThenPlaceholder("/users/{id:[0-9]+}", UsersSlash, IdDigits, IdDigitsVar);
  }

  const UsersId: Template := Template(Lits(UsersSlash) + [IdVar])
  const UsersIdDigits: Template := Template(Lits(UsersSlash) + [IdDigitsVar])

  /** "/users/{id}" matches "/users/1" whole, binding id to "1". */
  lemma UsersIdBindsValue()
    ensures var r := Match(UsersId, "/users/1");
            r.Some? && r.value.matched == "/users/1" && r.value.remaining.None?
            && r.value.parameters == map["id" := "1"]
  {
    UsersSlashPlain();
    assert Accepts(Default, "1");
    TrailingVariable(UsersSlash, "id", Default, "1");
    assert UsersSlash + "1" == "/users/1";
  }

  lemma DigitAccepted(v: string)
    requires |v| > 0 && forall i :: 0 <= i < |v| ==> '0' <= v[i] <= '9'
    ensures Accepts(Explicit(Digits), v)
  {
    forall i | 0 <= i < |v| ensures InClass(Digits, v[i]) {
      assert Covers(Digits.items[0], v[i]);
    }
  }

  /** "/users/{id:[0-9]+}" matches "/users/1" whole, binding id to "1". */
  lemma UsersIdDigitsBindsValue()
    ensures var r := Match(UsersIdDigits, "/users/1");
            r.Some? && r.value.matched == "/users/1" && r.value.remaining.None?
            && r.value.parameters == map["id" := "1"]
  {
    UsersSlashPlain();
    DigitAccepted("1");
    TrailingVariable(UsersSlash, "id", Explicit(Digits), "1");
    assert UsersSlash + "1" == "/users/1";
  }

  /** The first character a capture at offset k starts with. */
  lemma FirstCapturedChar(m: string, k: nat, vals: seq<string>)
    ensures k <= |m| && |vals| > 0 && 0 < |vals[0]| <= |m| - k && m[k..][..|vals[0]|] == vals[0] ==>
              m[k] == vals[0][0]
  {
    if k <= |m| && |vals| > 0 && 0 < |vals[0]| <= |m| - k && m[k..][..|vals[0]|] == vals[0] {
      assert m[k] == m[k..][..|vals[0]|][0];
    }
  }

  /** "/users/{id:[0-9]+}" does not match "/users/id": the pattern rejects 'i'. */
  lemma UsersIdDigitsRejectsWord()
    ensures Match(UsersIdDigits, "/users/id").None?
  {
    var path := "/users/id";
    if Match(UsersIdDigits, path).Some? {
      var r := Match(UsersIdDigits, path).value;
      UsersSlashPlain();
      FitsAfterLits(UsersSlash, [IdDigitsVar], r.values, r.matched);
      FirstCapturedChar(r.matched, |UsersSlash|, r.values);
      assert false;
    }
  }

  /** The counts compareTo reads for text followed by one variable. */
  lemma TrailingVariableCounts(text: string, v: Token)
    requires v.Var?
    ensures LiteralCount(Lits(text) + [v]) == |text|
    ensures |Variables(Lits(text) + [v])| == 1
    ensures SpecificCount(Lits(text) + [v]) == (if v.pattern.Explicit? then 1 else 0)
  {
    LitsThenCounts(text, [v]);
    TokensCons(v, []);
    assert [v] + [] == [v];
  }

  /** On "/users/1", "/users/{id:[0-9]+}" ranks before "/users/{id}": the same literals and
      variables, but an explicit pattern. */
  lemma ExplicitPatternRanksFirst()
    ensures Match(UsersIdDigits, "/users/1").Some? && Match(UsersId, "/users/1").Some?
    ensures Compare(Match(UsersIdDigits, "/users/1").value, Match(UsersId, "/users/1").value) < 0
    ensures Compare(Match(UsersId, "/users/1").value, Match(UsersIdDigits, "/users/1").value) > 0
  {
    UsersIdDigitsBindsValue();
    UsersIdBindsValue();
    MatchFacts(UsersIdDigits, "/users/1");
    MatchFacts(UsersId, "/users/1");
    TrailingVariableCounts(UsersSlash, IdDigitsVar);
    TrailingVariableCounts(UsersSlash, IdVar);
  }

  const UsersNumber: string := "/users/123456"

  lemma UsersNumberIsPlain()
    ensures PlainTextChars(UsersNumber)
  {
  }

  /** "/users/123456" matches itself whole. */
  lemma UsersNumberMatchesItself()
    ensures Match(Template(Lits(UsersNumber)), UsersNumber).Some?
  {
    UsersNumberIsPlain();
    PlainTemplateMatchesItself(UsersNumber);
  }

  lemma UsersIdMatchesNumber()
    ensures Match(UsersId, UsersNumber).Some?
  {
    UsersSlashPlain();
    assert Accepts(Default, "123456");
    TrailingVariable(UsersSlash, "id", Default, "123456");
    assert UsersSlash + "123456" == UsersNumber;
  }

  /** On "/users/123456", the template "/users/123456" ranks before "/users/{id}": it has more
      literal characters. */
  lemma LiteralTemplateRanksFirst()
    ensures Match(Template(Lits(UsersNumber)), UsersNumber).Some? && Match(UsersId, UsersNumber).Some?
    ensures Compare(Match(Template(Lits(UsersNumber)), UsersNumber).value, Match(UsersId, UsersNumber).value) < 0
    ensures Compare(Match(UsersId, UsersNumber).value, Match(Template(Lits(UsersNumber)), UsersNumber).value) > 0
  {
    UsersNumberMatchesItself();
    UsersIdMatchesNumber();
    LitsThenCounts(UsersNumber, []);
    assert Lits(UsersNumber) + [] == Lits(UsersNumber);
    TrailingVariableCounts(UsersSlash, IdVar);
    MoreLiteralsRankFirst(Template(Lits(UsersNumber)), UsersId, UsersNumber);
  }
}
