/** Registrations and requests for which the order of registration, or the names of captures, decide. */
module RouteCases {
  import opened Text
  import opened RoutePattern
  import opened RoutePriority
  import opened RouteShape
  import opened RouteNodes
  import opened RouteRanking
  import opened RouteDispatch
  import opened RouteClash
  import opened Router

  function Get(path: string, h: Handler): Registration {
    Registration("GET", path, App(h))
  }

  lemma GetIsUpper()
    ensures ToUpper("GET") == "GET" && !ContainsAny("GET", " \t\r\n")
  {
    var s := ToUpper("GET");
    assert s == ['G', 'E', 'T'];
    assert "GET" == ['G', 'E', 'T'];
    forall i | 0 <= i < 3 ensures "GET"[i] !in " \t\r\n" {
    }
  }

  lemma JoinTwo(a: string, b: string)
    ensures Join([a, b], "/") == a + "/" + b
  {
    assert [a, b][1..] == [b];
    assert Join([b], "/") == b;
  }

  lemma JoinThree(a: string, b: string, c: string)
    ensures Join([a, b, c], "/") == a + "/" + b + "/" + c
  {
    assert [a, b, c][1..] == [b, c];
    JoinTwo(b, c);
    assert a + "/" + (b + "/" + c) == a + "/" + b + "/" + c;
  }

  // ----- patterns spelled with lower-case letters ----------------------------------------------

  predicate Letters(s: string) {
    s != "" && forall i :: 0 <= i < |s| ==> 'a' <= s[i] <= 'z'
  }

  predicate Spelled(x: Segment) {
    Letters(if x.Lit? then x.text else x.name)
  }

  function Raw(x: Segment): string {
    match x
    case Lit(text) => text
    case Param(name) => ":" + name
    case Wild(name) => "*" + name
  }

  function Raws(segments: seq<Segment>): (raws: seq<string>)
    ensures |raws| == |segments| && forall i :: 0 <= i < |segments| ==> raws[i] == Raw(segments[i])
  {
    seq(|segments|, i requires 0 <= i < |segments| => Raw(segments[i]))
  }

  lemma OtherHead(s: string, c: char)
    requires s != "" && s[0] != c
    ensures !HasPrefix(s, [c])
  {
    var head := s[0];
    assert [c] <= s ==> head == c;
  }

  lemma LettersUsable(s: string)
    requires Letters(s)
    ensures !InvalidName(s) && '/' !in s && !HasPrefix(s, ":") && !HasPrefix(s, "*")
  {
    forall i | 0 <= i < |s| ensures s[i] !in " \t\r\n" {
    }
    OtherHead(s, ':');
    OtherHead(s, '*');
  }

  lemma SpelledRaw(x: Segment)
    requires Spelled(x)
    ensures Classify(Raw(x)) == x && '/' !in Raw(x) && Raw(x) != ""
  {
    hide InvalidName;
    LettersUsable(if x.Lit? then x.text else x.name);
    if x.Param? {
      assert (":" + x.name)[1..] == x.name;
    } else if x.Wild? {
      assert ("*" + x.name)[1..] == x.name && !HasPrefix("*" + x.name, ":");
    }
  }

  /** A pattern of spelled segments, empty ones allowed inside, is registered under those segments. */
  lemma PlannedGet(segments: seq<Segment>, k: nat, h: Handler)
    requires k < |segments| && segments[k].Param? && ValidSegments(segments)
    requires forall i :: 0 <= i < |segments| ==> Spelled(segments[i]) || segments[i] == Lit("")
    requires Spelled(segments[0]) && Spelled(segments[|segments| - 1])
    ensures
      var path := "/" + Join(Raws(segments), "/");
      Planned(Get(path, h)) == Dynamic(Route(path, segments, map["GET" := h]))
  {
    hide ContainsAny, Join, ValidSegments, SplitPath, ToUpper, Spelled, Classify;
    var raws := Raws(segments);
    var path := "/" + Join(raws, "/");
    forall i | 0 <= i < |segments| ensures '/' !in raws[i] && Classify(raws[i]) == segments[i] {
      if Spelled(segments[i]) {
        SpelledRaw(segments[i]);
      } else {
        EmptyRaw();
      }
    }
    SpelledRaw(segments[0]);
    SpelledRaw(segments[|segments| - 1]);
    CutPath(raws);
    GetIsUpper();
    assert SplitPath(path)[k] in SplitPath(path) && HasPrefix(raws[k], ":");
    assert HasPathParams(path);
    assert path[0] == '/' && HasPrefix(path, "/");
    assert ClassifyAll(raws) == segments;
  }

  lemma EmptyRaw()
    ensures Classify(Raw(Lit(""))) == Lit("") && '/' !in Raw(Lit(""))
  {
  }

  lemma {:induction false} KeptByNormalize(segments: seq<Segment>)
    requires forall i :: 0 <= i < |segments| ==> segments[i] != Lit("")
    ensures Normalize(segments) == segments
  {
    if segments != [] {
      var n := |segments| - 1;
      KeptByNormalize(segments[..n]);
      assert segments == segments[..n] + [segments[n]];
    }
  }

  lemma PlainTarget(path: string)
    requires path != "" && '?' !in path
    ensures RoutePath(path) == path
  {
    assert IndexOf(path, '?') == |path|;
    assert path[..|path|] == path;
  }

  // ----- names decide --------------------------------------------------------------------------

  function Generic(): seq<Segment> {
    [Lit("users"), Param("id"), Param("section")]
  }

  function Exact(): seq<Segment> {
    [Lit("users"), Param("uid"), Lit("books")]
  }

  lemma UsersWords()
    ensures Letters("users") && Letters("id") && Letters("section") && Letters("uid") && Letters("books")
    ensures ":" + "id" == ":id" && ":" + "section" == ":section" && ":" + "uid" == ":uid" && "id" != "section"
  {
    assert "id"[1] == 'd' && "section"[1] == 'e';
  }

  lemma UsersSpelled()
    ensures Raws(Generic()) == ["users", ":id", ":section"] && Raws(Exact()) == ["users", ":uid", "books"]
    ensures forall i :: 0 <= i < 3 ==> Spelled(Generic()[i]) && Spelled(Exact()[i])
    ensures ValidSegments(Generic()) && ValidSegments(Exact())
  {
    hide Letters, ValidSegments;
    UsersWords();
    ThreeValid("users", "id", Param("section"));
    ThreeValid("users", "uid", Lit("books"));
  }

  lemma ThreeValid(text: string, name: string, last: Segment)
    requires Letters(name) && Spelled(last) && !last.Wild? && (last.Param? ==> last.name != name)
    ensures ValidSegments([Lit(text), Param(name), last])
  {
    hide InvalidName, Letters;
    LettersUsable(name);
    LettersUsable(if last.Lit? then last.text else last.name);
  }

  lemma GenericPlanned()
    ensures Planned(Get("/users/:id/:section", 1))
            == Dynamic(Route("/users/:id/:section", Generic(), map["GET" := 1]))
    ensures Normalize(Generic()) == Generic()
  {
    hide Planned, Join, Normalize, ValidSegments, Spelled, Raws;
    UsersSpelled();
    JoinThree("users", ":id", ":section");
    assert "/" + ("users" + "/" + ":id" + "/" + ":section") == "/users/:id/:section";
    PlannedGet(Generic(), 1, 1);
    KeptByNormalize(Generic());
  }

  lemma ExactPlanned()
    ensures Planned(Get("/users/:uid/books", 2)) == Dynamic(Route("/users/:uid/books", Exact(), map["GET" := 2]))
    ensures Normalize(Exact()) == Exact()
  {
    hide Planned, Join, Normalize, ValidSegments, Spelled, Raws;
    UsersSpelled();
    JoinThree("users", ":uid", "books");
    assert "/" + ("users" + "/" + ":uid" + "/" + "books") == "/users/:uid/books";
    PlannedGet(Exact(), 1, 2);
    KeptByNormalize(Exact());
  }

  lemma UsersPlanned()
    ensures Planned(Get("/users/:id/:section", 1))
            == Dynamic(Route("/users/:id/:section", Generic(), map["GET" := 1]))
    ensures Planned(Get("/users/:uid/books", 2))
            == Dynamic(Route("/users/:uid/books", Exact(), map["GET" := 2]))
    ensures KeyOf(Planned(Get("/users/:id/:section", 1)).route) == Generic()
    ensures KeyOf(Planned(Get("/users/:uid/books", 2)).route) == Exact()
  {
    hide Planned, Normalize, Get, Generic, Exact;
    GenericPlanned();
    ExactPlanned();
  }

  lemma UsersClash()
    ensures Clash(Generic(), Exact()) && MoreSpecific(Exact(), Generic())
  {
    var a, b := Generic(), Exact();
    assert a[1..] == [Param("id"), Param("section")] && a[1..][1..] == [Param("section")];
    assert b[1..] == [Param("uid"), Lit("books")] && b[1..][1..] == [Lit("books")];
    assert a[1..][1..][1..] == [] == b[1..][1..][1..];
    assert a[..1] == b[..1] == [Lit("users")];
    assert PartAt(a, b, 1);
  }

  lemma LitStep(text: string, k: Key, xs: seq<string>)
    requires Matches(k, xs)
    ensures Matches([Lit(text)] + k, [text] + xs)
    ensures Bindings([Lit(text)] + k, [text] + xs) == Bindings(k, xs)
  {
    assert ([Lit(text)] + k)[1..] == k && ([text] + xs)[1..] == xs;
  }

  lemma ParamStep(name: string, x: string, k: Key, xs: seq<string>)
    requires Matches(k, xs)
    ensures Matches([Param(name)] + k, [x] + xs)
    ensures Bindings([Param(name)] + k, [x] + xs) == map[name := x] + Bindings(k, xs)
  {
    assert ([Param(name)] + k)[1..] == k && ([x] + xs)[1..] == xs;
  }

  lemma UsersMatch()
    ensures Matches(Generic(), ["users", "42", "books"]) && Matches(Exact(), ["users", "42", "books"])
    ensures Bindings(Generic(), ["users", "42", "books"]) == map["id" := "42", "section" := "books"]
  {
    hide Matches, Bindings;
    NothingMatches();
    ParamStep("section", "books", [], []);
    LitStep("books", [], []);
    assert [Param("section")] + [] == [Param("section")] && [Lit("books")] + [] == [Lit("books")];
    assert ["books"] + [] == ["books"];
    ParamStep("id", "42", [Param("section")], ["books"]);
    ParamStep("uid", "42", [Lit("books")], ["books"]);
    assert ["42"] + ["books"] == ["42", "books"];
    assert [Param("id")] + [Param("section")] == [Param("id"), Param("section")];
    assert [Param("uid")] + [Lit("books")] == [Param("uid"), Lit("books")];
    LitStep("users", [Param("id"), Param("section")], ["42", "books"]);
    LitStep("users", [Param("uid"), Lit("books")], ["42", "books"]);
    assert ["users"] + ["42", "books"] == ["users", "42", "books"];
    assert [Lit("users")] + [Param("id"), Param("section")] == Generic();
    assert [Lit("users")] + [Param("uid"), Lit("books")] == Exact();
  }

  lemma NothingMatches()
    ensures Matches([], []) && Bindings([], []) == map[]
  {
  }

  lemma UsersTarget()
    ensures SplitPath(RoutePath("/users/42/books")) == ["users", "42", "books"]
  {
    hide SplitPath, RoutePath, Join;
    JoinThree("users", "42", "books");
    assert "/" + ("users" + "/" + "42" + "/" + "books") == "/users/42/books";
    CutPath(["users", "42", "books"]);
    PlainTarget("/users/42/books");
  }

  /** Without shared names the documented rule fails: /users/:id/:section, registered first, answers
      /users/42/books although /users/:uid/books is more specific. */
  lemma NamesCanInvert()
    ensures
      var generic, exact := Get("/users/:id/:section", 1), Get("/users/:uid/books", 2);
      && Planned(generic).Dynamic? && Planned(exact).Dynamic?
      && MoreSpecific(KeyOf(Planned(exact).route), KeyOf(Planned(generic).route))
      && Dispatch(Build([generic, exact]), "GET", "/users/42/books")
         == Run(1, map["id" := "42", "section" := "books"])
  {
    hide Planned, Build, Dispatch, Clash, MoreSpecific, Matches, Bindings, SplitPath, RoutePath, ToUpper, KeyOf,
      Generic, Exact;
    UsersPlanned();
    UsersClash();
    UsersMatch();
    UsersTarget();
    GetIsUpper();
    FirstRegisteredRuns(Get("/users/:id/:section", 1), Get("/users/:uid/books", 2), "GET", "/users/42/books");
  }

  // ----- another route's names decide ----------------------------------------------------------

  function Elder(): seq<Segment> {
    [Lit("users"), Param("uid"), Lit("x")]
  }

  lemma ElderSpelled()
    ensures Raws(Elder()) == ["users", ":uid", "x"] && ValidSegments(Elder())
    ensures forall i :: 0 <= i < 3 ==> Spelled(Elder()[i])
  {
    hide ValidSegments;
    assert ":" + "uid" == ":uid";
    assert Letters("users") && Letters("uid") && Letters("x");
    ThreeValid("users", "uid", Lit("x"));
  }

  lemma ElderPlanned()
    ensures Planned(Get("/users/:uid/x", 0)) == Dynamic(Route("/users/:uid/x", Elder(), map["GET" := 0]))
    ensures KeyOf(Planned(Get("/users/:uid/x", 0)).route) == Elder()
  {
    hide Planned, Join, Normalize, ValidSegments, Spelled, Raws;
    ElderSpelled();
    JoinThree("users", ":uid", "x");
    assert "/" + ("users" + "/" + ":uid" + "/" + "x") == "/users/:uid/x";
    PlannedGet(Elder(), 1, 0);
    KeptByNormalize(Elder());
  }

  lemma ElderParts()
    ensures PartAt(Exact(), Generic(), 1) && Exact()[..2] <= Elder()
    ensures !Matches(Elder(), ["users", "42", "books"])
  {
    var xs := ["users", "42", "books"];
    assert Exact()[..1] == Generic()[..1] == [Lit("users")];
    assert Exact()[..2] == Elder()[..2];
    assert Elder()[1..][1..] == [Lit("x")] && xs[1..][1..] == ["books"];
  }

  lemma ExactBindings()
    ensures Bindings(Exact(), ["users", "42", "books"]) == map["uid" := "42"]
  {
    hide Matches, Bindings;
    NothingMatches();
    LitStep("books", [], []);
    assert [Lit("books")] + [] == [Lit("books")] && ["books"] + [] == ["books"];
    ParamStep("uid", "42", [Lit("books")], ["books"]);
    assert ["42"] + ["books"] == ["42", "books"];
    assert [Param("uid")] + [Lit("books")] == [Param("uid"), Lit("books")];
    LitStep("users", [Param("uid"), Lit("books")], ["42", "books"]);
    assert ["users"] + ["42", "books"] == ["users", "42", "books"];
    assert [Lit("users")] + [Param("uid"), Lit("books")] == Exact();
  }

  /** With one more route, /users/:uid/x, registered before the two, the later of them answers: its
      capture is the older one. */
  lemma LaterCanAnswer()
    ensures
      var elder, generic, exact := Get("/users/:uid/x", 0), Get("/users/:id/:section", 1), Get("/users/:uid/books", 2);
      Dispatch(Build([elder, generic, exact]), "GET", "/users/42/books") == Run(2, map["uid" := "42"])
  {
    hide Planned, Build, Dispatch, PartAt, Matches, Bindings, SplitPath, RoutePath, ToUpper, KeyOf, Generic, Exact,
      Elder;
    var elder, generic, exact := Get("/users/:uid/x", 0), Get("/users/:id/:section", 1), Get("/users/:uid/books", 2);
    ElderPlanned();
    UsersPlanned();
    ElderParts();
    UsersMatch();
    ExactBindings();
    UsersTarget();
    GetIsUpper();
    StartOfThree(elder, generic, exact);
    LastOfThreeRuns(Planned(elder).route, Planned(generic).route, Planned(exact).route, "GET",
                    RoutePath("/users/42/books"), 1);
    DispatchIsAnswer(Build([elder, generic, exact]), "GET", "/users/42/books");
  }

  // ----- the order of registration decides -----------------------------------------------------

  function Doubled(): seq<Segment> {
    [Lit("a"), Lit(""), Param("id")]
  }

  function Single(): seq<Segment> {
    [Lit("a"), Param("id")]
  }

  lemma SlashesSpelled()
    ensures Raws(Doubled()) == ["a", "", ":id"] && Raws(Single()) == ["a", ":id"]
    ensures Spelled(Lit("a")) && Spelled(Param("id"))
    ensures ValidSegments(Doubled()) && ValidSegments(Single())
  {
    assert ":" + "id" == ":id";
    assert Letters("a") && Letters("id");
    LettersUsable("id");
    hide InvalidName;
  }

  lemma SlashesPlanned(h: Handler)
    ensures Planned(Get("/a//:id", h)) == Dynamic(Route("/a//:id", Doubled(), map["GET" := h]))
    ensures Planned(Get("/a/:id", h)) == Dynamic(Route("/a/:id", Single(), map["GET" := h]))
  {
    hide Planned, Join, ValidSegments, Spelled, Raws;
    SlashesSpelled();
    JoinThree("a", "", ":id");
    JoinTwo("a", ":id");
    assert "/" + ("a" + "/" + "" + "/" + ":id") == "/a//:id";
    assert "/" + ("a" + "/" + ":id") == "/a/:id";
    PlannedGet(Doubled(), 2, h);
    PlannedGet(Single(), 1, h);
  }

  lemma SlashesShareKey()
    ensures Normalize(Doubled()) == Normalize(Single()) == Single()
    ensures Clash(Single(), Single())
  {
    hide Normalize;
    KeptByNormalize(Single());
    DoubledSlashSharesKey([Lit("a")], [Param("id")]);
    assert [Lit("a")] + [Lit("")] + [Param("id")] == Doubled() && [Lit("a")] + [Param("id")] == Single();
    assert Single()[1..] == [Param("id")] && Single()[1..][1..] == [];
  }

  lemma SlashesMatch()
    ensures Matches(Single(), ["a", "7"]) && Bindings(Single(), ["a", "7"]) == map["id" := "7"]
  {
    hide Matches, Bindings;
    NothingMatches();
    ParamStep("id", "7", [], []);
    assert [Param("id")] + [] == [Param("id")] && ["7"] + [] == ["7"];
    LitStep("a", [Param("id")], ["7"]);
    assert [Lit("a")] + [Param("id")] == Single() && ["a"] + ["7"] == ["a", "7"];
  }

  lemma SlashesTarget()
    ensures SplitPath(RoutePath("/a/7")) == ["a", "7"]
  {
    hide SplitPath, RoutePath, Join;
    JoinTwo("a", "7");
    assert "/" + ("a" + "/" + "7") == "/a/7";
    CutPath(["a", "7"]);
    PlainTarget("/a/7");
  }

  /** Two patterns that differ in an empty segment alone: whichever is registered first answers. */
  lemma SlashOrderShows()
    ensures
      var doubled, single := Get("/a//:id", 1), Get("/a/:id", 2);
      && Dispatch(Build([doubled, single]), "GET", "/a/7") == Run(1, map["id" := "7"])
      && Dispatch(Build([single, doubled]), "GET", "/a/7") == Run(2, map["id" := "7"])
  {
    hide Planned, Build, Dispatch, Clash, Matches, Bindings, SplitPath, RoutePath, ToUpper, Normalize, Doubled, Single;
    SlashesPlanned(1);
    SlashesPlanned(2);
    SlashesShareKey();
    SlashesMatch();
    SlashesTarget();
    GetIsUpper();
    FirstRegisteredRuns(Get("/a//:id", 1), Get("/a/:id", 2), "GET", "/a/7");
    FirstRegisteredRuns(Get("/a/:id", 2), Get("/a//:id", 1), "GET", "/a/7");
  }

  lemma StaticTarget()
    ensures SplitPath("/x") == ["x"] && RoutePath("/x") == "/x"
  {
    hide SplitPath, RoutePath;
    assert Join(["x"], "/") == "x" && "/" + "x" == "/x";
    CutPath(["x"]);
    PlainTarget("/x");
  }

  lemma StaticPlanned(h: Handler)
    ensures Planned(Get("/x", h)) == Static("/x", "GET", h)
  {
    hide SplitPath, ToUpper, ContainsAny;
    GetIsUpper();
    StaticTarget();
    OtherHead("x", ':');
    OtherHead("x", '*');
    assert [':'] == ":" && ['*'] == "*";
    assert !HasPathParams("/x") && "/x"[0] == '/';
  }

  /** Two handlers for one path and method: whichever is registered last answers. */
  lemma HandlerOrderShows(g: Handler, h: Handler)
    ensures Dispatch(Build([Get("/x", g), Get("/x", h)]), "GET", "/x") == Run(h, map[])
  {
    hide Planned, SplitPath, ToUpper, RoutePath;
    var x, y := Get("/x", g), Get("/x", h);
    StaticPlanned(g);
    StaticPlanned(h);
    StaticTarget();
    GetIsUpper();
    assert [x, y][..1] == [x] && [x][..0] == [];
    assert Build([x]) == RouterState(map["/x" := map["GET" := g]], []);
    assert map["GET" := g]["GET" := h] == map["GET" := h];
    assert Build([x, y]) == RouterState(map["/x" := map["GET" := h]], []);
  }
}
