/** The ranking row of the repository's PathTemplate tests where the literal counts tie:
    on "/users/1234567890/order", "/{resource}/1234567890/{action}" ranks before
    "/users/{id}/order" because it has more variables. */
module RankingScenarios {
  import opened Wrappers
  import opened TemplateSyntax
  import opened UriTemplate

  const OrderPath: string := "/users/1234567890/order"

  const ResourcePiece: Piece := Placeholder("resource", None)
  const ActionPiece: Piece := Placeholder("action", None)
  const IdPiece: Piece := Placeholder("id", None)

  const ResourceVar: Token := Var("resource", Default)
  const ActionVar: Token := Var("action", Default)
  const IdVar: Token := Var("id", Default)

  /** The tokens after the leading "/" of "/{resource}/1234567890/{action}". */
  const ResourceTail: seq<Token> := [ResourceVar] + (Lits("/1234567890/") + [ActionVar])
  const ResourceAction: Template := Template(Lits("/") + ResourceTail)

  /** The tokens after the leading "/users/" of "/users/{id}/order". */
  const IdTail: seq<Token> := [IdVar] + Lits("/order")
  const UsersIdOrder: Template := Template(Lits("/users/") + IdTail)

  lemma PlainParts()
    ensures PlainTextChars("/") && PlainTextChars("/1234567890/")
    ensures PlainTextChars("/users/") && PlainTextChars("/order")
  {
  }

  lemma DefaultAccepts()
    ensures Accepts(Default, "users") && Accepts(Default, "order") && Accepts(Default, "1234567890")
  {
  }

  // ---------------------------------------------------------------------------
  // Compilation
  // ---------------------------------------------------------------------------

  lemma WellFormedPieces()
    ensures WellFormed(ResourcePiece) && WellFormed(ActionPiece) && WellFormed(IdPiece)
  {
  }

  /** The pieces of "/1234567890/{action}". */
  lemma ScanNumberAction()
    ensures Scan("/1234567890/" + Render(ActionPiece)) == Texts("/1234567890/") + [ActionPiece]
  {
    PlainParts();
    WellFormedPieces();
    ScanBraceFree("/1234567890/", Render(ActionPiece));
    ScanPlaceholder(ActionPiece, "");
    ScanSame(Render(ActionPiece) + "", Render(ActionPiece));
    assert Scan("") == [];
  }

  /** The pieces of "{resource}/1234567890/{action}". */
  lemma ScanResourceTail()
    ensures Scan(Render(ResourcePiece) + ("/1234567890/" + Render(ActionPiece)))
            == [ResourcePiece] + (Texts("/1234567890/") + [ActionPiece])
  {
    WellFormedPieces();
    ScanPlaceholder(ResourcePiece, "/1234567890/" + Render(ActionPiece));
    ScanNumberAction();
  }

  lemma RenderNumberAction()
    ensures "/1234567890/" + Render(ActionPiece) == "/1234567890/{action}"
  {
    assert Render(ActionPiece) == "{action}";
  }

  lemma RenderResource()
    ensures Render(ResourcePiece) == "{resource}"
  {
  }

  lemma SpellResourceTail()
    ensures "{resource}" + "/1234567890/{action}" == "{resource}/1234567890/{action}"
  {
  }

  lemma SpellResourceAction()
    ensures "/" + "{resource}/1234567890/{action}" == "/{resource}/1234567890/{action}"
  {
  }

  lemma RenderResourceAction()
    ensures "/" + (Render(ResourcePiece) + ("/1234567890/" + Render(ActionPiece))) == "/{resource}/1234567890/{action}"
  {
    RenderNumberAction();
    RenderResource();
    SpellResourceTail();
    SpellResourceAction();
  }

  /** The pieces of "/{resource}/1234567890/{action}". */
  lemma ScanResourceAction()
    ensures Scan("/{resource}/1234567890/{action}")
            == Texts("/") + ([ResourcePiece] + (Texts("/1234567890/") + [ActionPiece]))
  {
    PlainParts();
    var tail := Render(ResourcePiece) + ("/1234567890/" + Render(ActionPiece));
    ScanBraceFree("/", tail);
    ScanResourceTail();
    RenderResourceAction();
    ScanSame("/" + tail, "/{resource}/1234567890/{action}");
  }

  /** The tokens of the pieces of "/{resource}/1234567890/{action}". */
  lemma TokensResourceAction()
    ensures ToTokens(Texts("/") + ([ResourcePiece] + (Texts("/1234567890/") + [ActionPiece])))
            == Success(ResourceAction.tokens)
  {
    PlainParts();
    assert ToTokens([]) == Success([]);
    ToTokensPlaceholder("action", []);
    assert [ActionPiece] + [] == [ActionPiece];
    assert [ActionVar] + [] == [ActionVar];
    TextsThenTokens("/1234567890/", [ActionPiece]);
    ToTokensPlaceholder("resource", Texts("/1234567890/") + [ActionPiece]);
    TextsThenTokens("/", [ResourcePiece] + (Texts("/1234567890/") + [ActionPiece]));
  }

  /** The names declared by "/1234567890/{action}". */
  lemma NamesNumberAction()
    ensures Names(Texts("/1234567890/") + [ActionPiece]) == ["action"]
  {
    PlainParts();
    TextsToTokens("/1234567890/");
    NamesAppend(Texts("/1234567890/"), [ActionPiece]);
    assert [ActionPiece][1..] == [];
  }

  /** The names declared by "/{resource}/1234567890/{action}". */
  lemma NamesResourceAction()
    ensures Names(Texts("/") + ([ResourcePiece] + (Texts("/1234567890/") + [ActionPiece]))) == ["resource", "action"]
  {
    var inner := Texts("/1234567890/") + [ActionPiece];
    NamesNumberAction();
    assert Names([ResourcePiece] + inner) == ["resource"] + Names(inner) by {
      assert ([ResourcePiece] + inner)[1..] == inner;
    }
    PlainParts();
    TextsToTokens("/");
    NamesAppend(Texts("/"), [ResourcePiece] + inner);
  }

  lemma DistinctResourceAction()
    ensures Distinct(["resource", "action"])
  {
  }

  /** "/{resource}/1234567890/{action}" compiles to "/", a default variable resource,
      "/1234567890/" and a default variable action. */
  lemma ResourceActionCompiles()
    ensures Compile("/{resource}/1234567890/{action}") == Success(ResourceAction)
  {
    ScanResourceAction();
    NamesResourceAction();
    TokensResourceAction();
    DistinctResourceAction();
    CompileOf("/{resource}/1234567890/{action}",
              Texts("/") + ([ResourcePiece] + (Texts("/1234567890/") + [ActionPiece])),
              ResourceAction.tokens);
  }

  /** The pieces of "{id}/order". */
  lemma ScanIdOrder()
    ensures Scan(Render(IdPiece) + "/order") == [IdPiece] + Texts("/order")
  {
    PlainParts();
    WellFormedPieces();
    ScanPlaceholder(IdPiece, "/order");
    ScanBraceFree("/order", "");
    ScanSame("/order" + "", "/order");
    assert Scan("") == [];
    assert Texts("/order") + [] == Texts("/order");
  }

  lemma RenderUsersIdOrder()
    ensures "/users/" + (Render(IdPiece) + "/order") == "/users/{id}/order"
  {
  }

  /** The pieces of "/users/{id}/order". */
  lemma ScanUsersIdOrder()
    ensures Scan("/users/{id}/order") == Texts("/users/") + ([IdPiece] + Texts("/order"))
  {
    PlainParts();
    ScanBraceFree("/users/", Render(IdPiece) + "/order");
    ScanIdOrder();
    RenderUsersIdOrder();
    ScanSame("/users/" + (Render(IdPiece) + "/order"), "/users/{id}/order");
  }

  /** The tokens of the pieces of "/users/{id}/order". */
  lemma TokensUsersIdOrder()
    ensures ToTokens(Texts("/users/") + ([IdPiece] + Texts("/order"))) == Success(UsersIdOrder.tokens)
  {
    PlainParts();
    TextsToTokens("/order");
    ToTokensPlaceholder("id", Texts("/order"));
    TextsThenTokens("/users/", [IdPiece] + Texts("/order"));
  }

  /** The names declared by "/users/{id}/order". */
  lemma NamesUsersIdOrder()
    ensures Names(Texts("/users/") + ([IdPiece] + Texts("/order"))) == ["id"]
  {
    PlainParts();
    TextsToTokens("/order");
    assert Names([IdPiece] + Texts("/order")) == ["id"] + Names(Texts("/order")) by {
      assert ([IdPiece] + Texts("/order"))[0] == IdPiece;
      assert ([IdPiece] + Texts("/order"))[1..] == Texts("/order");
    }
    TextsToTokens("/users/");
    NamesAppend(Texts("/users/"), [IdPiece] + Texts("/order"));
  }

  /** "/users/{id}/order" compiles to "/users/", a default variable id and "/order". */
  lemma UsersIdOrderCompiles()
    ensures Compile("/users/{id}/order") == Success(UsersIdOrder)
  {
    ScanUsersIdOrder();
    NamesUsersIdOrder();
    TokensUsersIdOrder();
    CompileOf("/users/{id}/order", Texts("/users/") + ([IdPiece] + Texts("/order")), UsersIdOrder.tokens);
  }

  // ---------------------------------------------------------------------------
  // Matching
  // ---------------------------------------------------------------------------

  /** "{action}" fits "order". */
  lemma ActionFits()
    ensures Fits([ActionVar], ["order"], "order")
  {
    DefaultAccepts();
    assert Fits([], [], "");
    FitsAfterVar("action", Default, "order", [], [], "");
    assert [ActionVar] + [] == [ActionVar];
    assert ["order"] + [] == ["order"];
    assert "order" + "" == "order";
  }

  /** "/1234567890/{action}" fits "/1234567890/order" with action = "order". */
  lemma NumberActionFits()
    ensures Fits(Lits("/1234567890/") + [ActionVar], ["order"], "/1234567890/" + "order")
  {
    PlainParts();
    ActionFits();
    FitsLitsBefore("/1234567890/", [ActionVar], ["order"], "order");
  }

  /** "{resource}/1234567890/{action}" fits "users/1234567890/order". */
  lemma ResourceTailFits()
    ensures Fits(ResourceTail, ["users", "order"], "users" + ("/1234567890/" + "order"))
  {
    DefaultAccepts();
    NumberActionFits();
    FitsAfterVar("resource", Default, "users", Lits("/1234567890/") + [ActionVar], ["order"], "/1234567890/" + "order");
    assert ["users"] + ["order"] == ["users", "order"];
  }

  lemma SpellOrderPathByResource()
    ensures "/" + ("users" + ("/1234567890/" + "order")) == OrderPath
  {
  }

  /** "/{resource}/1234567890/{action}" fits the whole path with resource = "users" and
      action = "order". */
  lemma ResourceActionFits()
    ensures Fits(ResourceAction.tokens, ["users", "order"], OrderPath)
  {
    PlainParts();
    ResourceTailFits();
    FitsLitsBefore("/", ResourceTail, ["users", "order"], "users" + ("/1234567890/" + "order"));
    SpellOrderPathByResource();
  }

  /** "{id}/order" fits "1234567890/order" with id = "1234567890". */
  lemma IdTailFits()
    ensures Fits(IdTail, ["1234567890"], "1234567890" + "/order")
  {
    PlainParts();
    DefaultAccepts();
    assert Fits([], [], "");
    FitsLitsBefore("/order", [], [], "");
    assert Lits("/order") + [] == Lits("/order");
    assert "/order" + "" == "/order";
    FitsAfterVar("id", Default, "1234567890", Lits("/order"), [], "/order");
    assert ["1234567890"] + [] == ["1234567890"];
  }

  lemma SpellOrderPathById()
    ensures "/users/" + ("1234567890" + "/order") == OrderPath
  {
  }

  /** "/users/{id}/order" fits the whole path with id = "1234567890". */
  lemma UsersIdOrderFits()
    ensures Fits(UsersIdOrder.tokens, ["1234567890"], OrderPath)
  {
    PlainParts();
    IdTailFits();
    FitsLitsBefore("/users/", IdTail, ["1234567890"], "1234567890" + "/order");
    SpellOrderPathById();
  }

  lemma WholePath()
    ensures OrderPath[..|OrderPath|] == OrderPath && SuffixOk(OrderPath[|OrderPath|..])
  {
    assert OrderPath[|OrderPath|..] == [];
  }

  lemma ResourceActionMatches()
    ensures Match(ResourceAction, OrderPath).Some?
  {
    ResourceActionFits();
    WholePath();
    SplitMatches(ResourceAction, OrderPath, ["users", "order"], |OrderPath|);
  }

  lemma UsersIdOrderMatches()
    ensures Match(UsersIdOrder, OrderPath).Some?
  {
    UsersIdOrderFits();
    WholePath();
    SplitMatches(UsersIdOrder, OrderPath, ["1234567890"], |OrderPath|);
  }

  // ---------------------------------------------------------------------------
  // Ranking
  // ---------------------------------------------------------------------------

  /** "/{resource}/1234567890/{action}" has 13 literal characters and two variables. */
  lemma ResourceActionCounts()
    ensures LiteralCount(ResourceAction.tokens) == 13 && |Variables(ResourceAction.tokens)| == 2
  {
    LitsThenCounts("/", ResourceTail);
    TokensCons(ResourceVar, Lits("/1234567890/") + [ActionVar]);
    LitsThenCounts("/1234567890/", [ActionVar]);
    TokensCons(ActionVar, []);
    assert [ActionVar] + [] == [ActionVar];
  }

  /** "/users/{id}/order" has 13 literal characters and one variable. */
  lemma UsersIdOrderCounts()
    ensures LiteralCount(UsersIdOrder.tokens) == 13 && |Variables(UsersIdOrder.tokens)| == 1
  {
    LitsThenCounts("/users/", IdTail);
    TokensCons(IdVar, Lits("/order"));
    LitsThenCounts("/order", []);
    assert Lits("/order") + [] == Lits("/order");
  }

  /** On "/users/1234567890/order" both templates match with 13 literal characters each, and
      "/{resource}/1234567890/{action}" ranks first for its second variable. */
  lemma MoreVariablesTemplateRanksFirst()
    ensures Match(ResourceAction, OrderPath).Some? && Match(UsersIdOrder, OrderPath).Some?
    ensures Compare(Match(ResourceAction, OrderPath).value, Match(UsersIdOrder, OrderPath).value) < 0
    ensures Compare(Match(UsersIdOrder, OrderPath).value, Match(ResourceAction, OrderPath).value) > 0
  {
    ResourceActionMatches();
    UsersIdOrderMatches();
    ResourceActionCounts();
    UsersIdOrderCounts();
    MoreVariablesRankFirst(ResourceAction, UsersIdOrder, OrderPath);
  }
}
