/** Route patterns: how a pattern and a request path are cut into segments, and what it means for
    one pattern to match one path. */
module RoutePattern {
  import opened Text

  datatype Segment = Lit(text: string) | Param(name: string) | Wild(name: string)

  // A pattern as the trie stores it: without the empty literals of doubled slashes.
  type Key = seq<Segment>

  function SplitPath(path: string): seq<string> {
    var trimmed := Trim(path, "/");
    if trimmed == "" then [] else Split(trimmed, '/')
  }

  predicate HasPathParams(path: string) {
    exists s :: s in SplitPath(path) && (HasPrefix(s, ":") || HasPrefix(s, "*"))
  }

  predicate InvalidName(name: string) {
    name == "" || ContainsAny(name, " \t\r\n")
  }

  function Classify(raw: string): Segment {
    if HasPrefix(raw, ":") then Param(raw[1..])
    else if HasPrefix(raw, "*") then Wild(raw[1..])
    else Lit(raw)
  }

  function ClassifyAll(raws: seq<string>): (segments: seq<Segment>)
    ensures |segments| == |raws| && forall i :: 0 <= i < |raws| ==> segments[i] == Classify(raws[i])
  {
    seq(|raws|, i requires 0 <= i < |raws| => Classify(raws[i]))
  }

  predicate Captures(s: Segment) {
    !s.Lit?
  }

  /** Names are usable and pairwise different, and only the last segment may be a wildcard. */
  predicate ValidSegments(segments: seq<Segment>) {
    && (forall i :: 0 <= i < |segments| && Captures(segments[i]) ==> !InvalidName(segments[i].name))
    && (forall i :: 0 <= i < |segments| && segments[i].Wild? ==> i == |segments| - 1)
    && (forall i, j :: 0 <= i < j < |segments| && Captures(segments[i]) && Captures(segments[j]) ==>
          segments[i].name != segments[j].name)
  }

  function Names(k: seq<Segment>): set<string> {
    set i | 0 <= i < |k| && Captures(k[i]) :: k[i].name
  }

  /** Segment i can follow the valid ones before it. */
  predicate Admissible(all: seq<Segment>, i: nat)
    requires i < |all|
  {
    Captures(all[i]) ==>
      && !InvalidName(all[i].name)
      && all[i].name !in Names(all[..i])
      && (all[i].Wild? ==> i == |all| - 1)
  }

  lemma ValidGrows(all: seq<Segment>, i: nat)
    requires i < |all| && ValidSegments(all[..i]) && Admissible(all, i)
    requires forall k :: 0 <= k < i ==> !all[k].Wild?
    ensures ValidSegments(all[..i + 1])
  {
    var prefix := all[..i];
    forall k | 0 <= k < i && Captures(all[k]) ensures all[k].name in Names(prefix) {
      assert prefix[k] == all[k];
    }
  }

  lemma NamesGrow(all: seq<Segment>, i: nat)
    requires i < |all|
    ensures Names(all[..i + 1]) == Names(all[..i]) + if Captures(all[i]) then {all[i].name} else {}
  {
    var prefix, longer := all[..i], all[..i + 1];
    forall n | n in Names(prefix) ensures n in Names(longer) {
      var k :| 0 <= k < |prefix| && Captures(prefix[k]) && prefix[k].name == n;
      assert longer[k] == prefix[k];
    }
    forall n | n in Names(longer) && !(Captures(all[i]) && all[i].name == n) ensures n in Names(prefix) {
      var k :| 0 <= k < |longer| && Captures(longer[k]) && longer[k].name == n;
      assert prefix[k] == longer[k];
    }
    assert longer[i] == all[i];
  }

  lemma ValidIsAdmissible(all: seq<Segment>, i: nat)
    requires i < |all|
    ensures ValidSegments(all) ==> Admissible(all, i)
  {
  }

  method ParseRouteSegments(path: string) returns (r: Option<seq<Segment>>)
    ensures r.Some? <==> ValidSegments(ClassifyAll(SplitPath(path)))
    ensures r.Some? ==> r.value == ClassifyAll(SplitPath(path))
  {
    r := ParseRawSegments(SplitPath(path));
  }

  method ParseRawSegments(raws: seq<string>) returns (r: Option<seq<Segment>>)
    ensures r.Some? <==> ValidSegments(ClassifyAll(raws))
    ensures r.Some? ==> r.value == ClassifyAll(raws)
  {
    ghost var all := ClassifyAll(raws);
    var segments: seq<Segment> := [];
    var seen: set<string> := {};
    for i := 0 to |raws|
      invariant segments == all[..i] && ValidSegments(all[..i])
      invariant i < |raws| ==> forall k :: 0 <= k < i ==> !all[k].Wild?
      invariant seen == Names(all[..i])
    {
      var raw := raws[i];
      ValidIsAdmissible(all, i);
      if HasPrefix(raw, ":") {
        var name := raw[1..];
        if InvalidName(name) || name in seen {
          return None;
        }
        seen := seen + {name};
        segments := segments + [Param(name)];
      } else if HasPrefix(raw, "*") {
        var name := raw[1..];
        if InvalidName(name) || i != |raws| - 1 || name in seen {
          return None;
        }
        seen := seen + {name};
        segments := segments + [Wild(name)];
      } else {
        segments := segments + [Lit(raw)];
      }
      assert segments == all[..i] + [all[i]] == all[..i + 1];
      ValidGrows(all, i);
      NamesGrow(all, i);
    }
    assert all[..|raws|] == all;
    return Some(segments);
  }

  /** insert takes no step for an empty literal, so the node depends only on what is left. */
  function Normalize(segments: seq<Segment>): Key {
    if segments == [] then []
    else
      var last := segments[|segments| - 1];
      Normalize(segments[..|segments| - 1]) + if last == Lit("") then [] else [last]
  }

  /** The trie's keys: valid segments without empty literals. */
  predicate ValidKey(k: Key) {
    && ValidSegments(k)
    && forall i :: 0 <= i < |k| ==> k[i] != Lit("") && (k[i].Lit? ==> '/' !in k[i].text)
  }

  lemma {:induction false} NormalizeMembers(segments: seq<Segment>)
    ensures forall s :: s in Normalize(segments) <==> s in segments && s != Lit("")
    ensures |Normalize(segments)| <= |segments|
  {
    if segments != [] {
      NormalizeMembers(segments[..|segments| - 1]);
    }
  }

  /** Doubled slashes leave no trace: the patterns with and without them have one key. */
  lemma {:induction false} DoubledSlashSharesKey(before: seq<Segment>, after: seq<Segment>)
    ensures Normalize(before + [Lit("")] + after) == Normalize(before + after)
    decreases |after|
  {
    var with, without := before + [Lit("")] + after, before + after;
    if after == [] {
      assert with[..|with| - 1] == before == without;
    } else {
      var n := |after| - 1;
      assert with[..|with| - 1] == before + [Lit("")] + after[..n];
      assert without[..|without| - 1] == before + after[..n];
      DoubledSlashSharesKey(before, after[..n]);
    }
  }

  lemma {:induction false} NormalizeKeepsValid(segments: seq<Segment>)
    requires ValidSegments(segments)
    ensures ValidSegments(Normalize(segments))
  {
    if segments != [] {
      var n := |segments| - 1;
      NormalizeKeepsValid(segments[..n]);
      NormalizeMembers(segments[..n]);
      SnocKeepsValid(segments, Normalize(segments[..n]));
    }
  }

  lemma SnocKeepsValid(segments: seq<Segment>, k: seq<Segment>)
    requires ValidSegments(segments) && segments != [] && ValidSegments(k)
    requires forall s :: s in k ==> s in segments[..|segments| - 1]
    ensures ValidSegments(k + [segments[|segments| - 1]])
  {
    forall i | 0 <= i < |k|
      ensures !k[i].Wild?
      ensures Captures(k[i]) && Captures(segments[|segments| - 1]) ==>
                k[i].name != segments[|segments| - 1].name
    {
      assert k[i] in k;
    }
  }

  lemma PatternKeyIsValid(path: string)
    requires ValidSegments(ClassifyAll(SplitPath(path)))
    ensures ValidKey(Normalize(ClassifyAll(SplitPath(path))))
  {
    var all := ClassifyAll(SplitPath(path));
    var k := Normalize(all);
    NormalizeKeepsValid(all);
    NormalizeMembers(all);
    forall i | 0 <= i < |k| ensures k[i] != Lit("") && (k[i].Lit? ==> '/' !in k[i].text) {
      assert k[i] in all;
      var j :| 0 <= j < |all| && all[j] == k[i];
      SplitParts(Trim(path, "/"), '/');
      assert SplitPath(path)[j] in SplitPath(path);
    }
  }

  // ----- what makes a path a pattern -----------------------------------------------------------

  /** A segment begins here, with this character. */
  predicate HeadAt(s: string, c: char, i: nat) {
    i < |s| && s[i] == c && (i == 0 || s[i - 1] == '/')
  }

  predicate StartsWith(s: string, c: char) {
    s != "" && s[0] == c
  }

  lemma HeadInRest(t: string, c: char, cut: nat, k: nat)
    requires cut < |t| && t[cut] == '/' && c != '/'
    ensures HeadAt(t[cut + 1..], c, k) <==> HeadAt(t, c, cut + 1 + k)
  {
  }

  lemma HeadBeforeCut(t: string, c: char, cut: nat, k: nat)
    requires cut <= |t| && (forall i :: 0 <= i < cut ==> t[i] != '/') && c != '/'
    requires k <= cut && (k == cut ==> k == |t| || t[k] == '/')
    ensures HeadAt(t, c, k) <==> k == 0 && StartsWith(t[..cut], c)
  {
  }

  lemma {:induction false} SplitHeads(t: string, c: char)
    requires c != '/'
    ensures (exists p :: p in Split(t, '/') && StartsWith(p, c)) <==> exists i :: HeadAt(t, c, i)
    decreases |t|
  {
    hide HeadAt, StartsWith, Split, IndexOf;
    var i := IndexOf(t, '/');
    var first := t[..i];
    HeadBeforeCut(t, c, i, 0);
    forall k: nat | k <= i ensures HeadAt(t, c, k) ==> StartsWith(first, c) {
      HeadBeforeCut(t, c, i, k);
    }
    if i == |t| {
      assert first == t;
      SplitWhole(t);
      forall k: nat | HeadAt(t, c, k) ensures k <= i {
        HeadBound(t, c, k);
      }
    } else {
      var rest := t[i + 1..];
      SplitHeads(rest, c);
      SplitFirst(t);
      if k: nat :| HeadAt(rest, c, k) {
        HeadInRest(t, c, i, k);
      }
      if k: nat :| HeadAt(t, c, k) && k > i {
        HeadInRest(t, c, i, k - i - 1);
      }
    }
  }

  lemma HeadBound(s: string, c: char, i: nat)
    requires HeadAt(s, c, i)
    ensures i < |s|
  {
  }

  lemma SplitWhole(t: string)
    requires IndexOf(t, '/') == |t|
    ensures forall p :: p in Split(t, '/') <==> p == t
  {
    hide IndexOf;
    assert Split(t, '/') == [t] && t in [t];
  }

  lemma SplitFirst(t: string)
    requires IndexOf(t, '/') < |t|
    ensures
      var i := IndexOf(t, '/');
      forall p :: p in Split(t, '/') <==> p == t[..i] || p in Split(t[i + 1..], '/')
  {
    hide IndexOf;
    var i := IndexOf(t, '/');
    var more := Split(t[i + 1..], '/');
    assert Split(t, '/') == [t[..i]] + more;
    assert ([t[..i]] + more)[0] == t[..i] && ([t[..i]] + more)[1..] == more;
  }

  lemma HeadsTrimmed(before: string, t: string, after: string, c: char, i: nat)
    requires c != '/'
    requires forall k :: 0 <= k < |before| ==> before[k] == '/'
    requires forall k :: 0 <= k < |after| ==> after[k] == '/'
    ensures HeadAt(before + t + after, c, i) <==> i >= |before| && HeadAt(t, c, i - |before|)
  {
    var s, n := before + t + after, |before|;
    if i < |s| {
      assert s[i] == if i < n then before[i] else if i < n + |t| then t[i - n] else after[i - n - |t|];
      assert i > 0 ==>
                 s[i - 1] == if i - 1 < n then before[i - 1] else if i - 1 < n + |t| then t[i - 1 - n]
                             else after[i - 1 - n - |t|];
    }
  }

  lemma TrimHeads(s: string, c: char)
    requires c != '/'
    ensures (exists i :: HeadAt(Trim(s, "/"), c, i)) <==> exists i :: HeadAt(s, c, i)
  {
    hide Trim, HeadAt;
    var before, after := TrimSplits(s, "/");
    var t := Trim(s, "/");
    if i: nat :| HeadAt(t, c, i) {
      HeadsTrimmed(before, t, after, c, i + |before|);
    }
    if i: nat :| HeadAt(s, c, i) {
      HeadsTrimmed(before, t, after, c, i);
    }
  }

  lemma CaptureHeads(path: string)
    ensures HasPathParams(path) <==> exists i :: HeadAt(path, ':', i) || HeadAt(path, '*', i)
  {
    hide HeadAt, Trim, Split;
    var t := Trim(path, "/");
    TrimHeads(path, ':');
    TrimHeads(path, '*');
    SplitHeads(t, ':');
    SplitHeads(t, '*');
    NothingSplit();
    assert [':'] == ":" && ['*'] == "*";
    assert forall p :: (HasPrefix(p, ":") <==> StartsWith(p, ':')) && (HasPrefix(p, "*") <==> StartsWith(p, '*'));
    assert t != "" ==> SplitPath(path) == Split(t, '/');
  }

  lemma NothingSplit()
    ensures Split("", '/') == [""] && !StartsWith("", ':') && !StartsWith("", '*')
  {
  }

  /** Somewhere in the path a slash is followed by a colon or an asterisk. */
  predicate HasMark(path: string) {
    exists i :: 0 < i < |path| && path[i - 1] == '/' && (path[i] == ':' || path[i] == '*')
  }

  /** A rooted path is a pattern exactly when somewhere a slash is followed by a colon or an asterisk. */
  lemma PatternIff(path: string)
    requires HasPrefix(path, "/")
    ensures HasPathParams(path) <==> HasMark(path)
  {
    hide HasPathParams;
    CaptureHeads(path);
    if i: nat :| HeadAt(path, ':', i) || HeadAt(path, '*', i) {
      assert i > 0 && path[i - 1] == '/';
    }
    if i :| 0 < i < |path| && path[i - 1] == '/' && (path[i] == ':' || path[i] == '*') {
      assert HeadAt(path, ':', i) || HeadAt(path, '*', i);
    }
  }

  predicate Marked(raw: string) {
    raw != "" && (raw[0] == ':' || raw[0] == '*')
  }

  predicate GoodName(name: string) {
    name != "" && ' ' !in name && '\t' !in name && '\r' !in name && '\n' !in name
  }

  /** Every name after a colon or an asterisk is non-empty and free of blanks and line breaks, no name is
      used twice, and only the last segment starts with an asterisk. */
  predicate GoodSegments(raws: seq<string>) {
    && (forall i :: 0 <= i < |raws| && Marked(raws[i]) ==> GoodName(raws[i][1..]))
    && (forall i, j :: 0 <= i < j < |raws| && Marked(raws[i]) && Marked(raws[j]) ==> raws[i][1..] != raws[j][1..])
    && (forall i :: 0 <= i < |raws| - 1 && Marked(raws[i]) ==> raws[i][0] == ':')
  }

  lemma GoodNameIff(name: string)
    ensures GoodName(name) <==> !InvalidName(name)
  {
    var blanks := " \t\r\n";
    assert forall c :: c in blanks <==> c == ' ' || c == '\t' || c == '\r' || c == '\n';
  }

  lemma ClassifyIff(raw: string)
    ensures !Marked(raw) ==> Classify(raw) == Lit(raw)
    ensures Marked(raw) && raw[0] == ':' ==> Classify(raw) == Param(raw[1..])
    ensures Marked(raw) && raw[0] == '*' ==> Classify(raw) == Wild(raw[1..])
  {
    assert HasPrefix(raw, ":") <==> raw != "" && raw[0] == ':';
    assert HasPrefix(raw, "*") <==> raw != "" && raw[0] == '*';
  }

  lemma AcceptedIff(raws: seq<string>)
    ensures ValidSegments(ClassifyAll(raws)) <==> GoodSegments(raws)
  {
    hide InvalidName, GoodName, Classify;
    var all := ClassifyAll(raws);
    forall i | 0 <= i < |raws|
      ensures Captures(all[i]) <==> Marked(raws[i])
      ensures Marked(raws[i]) ==> all[i].name == raws[i][1..] && (all[i].Wild? <==> raws[i][0] == '*')
      ensures Marked(raws[i]) ==> (GoodName(raws[i][1..]) <==> !InvalidName(all[i].name))
    {
      ClassifyIff(raws[i]);
      if Marked(raws[i]) {
        GoodNameIff(raws[i][1..]);
      }
    }
  }

  lemma OuterSlashes(before: string, path: string, after: string)
    requires (forall c :: c in before ==> c == '/') && (forall c :: c in after ==> c == '/')
    ensures SplitPath(before + path + after) == SplitPath(path)
  {
    hide Trim, Split;
    var lead, trail := TrimSplits(path, "/");
    var t := Trim(path, "/");
    assert before + path + after == (before + lead) + t + (trail + after);
    assert forall i :: 0 <= i < |before| ==> before[i] in before;
    assert forall i :: 0 <= i < |after| ==> after[i] in after;
    TrimPadding(before + lead, t, trail + after, "/");
  }

  // ----- matching one pattern ------------------------------------------------------------------

  /** The segment-by-segment matcher: a parameter takes one segment, a wildcard the whole rest. */
  predicate Matches(k: Key, xs: seq<string>) {
    if k == [] then xs == []
    else
      match k[0]
      case Lit(text) => xs != [] && xs[0] == text && Matches(k[1..], xs[1..])
      case Param(_) => xs != [] && Matches(k[1..], xs[1..])
      case Wild(_) => |k| == 1
  }

  function Bindings(k: Key, xs: seq<string>): map<string, string>
    requires Matches(k, xs)
  {
    if k == [] then map[]
    else
      match k[0]
      case Lit(_) => Bindings(k[1..], xs[1..])
      case Param(name) => map[name := xs[0]] + Bindings(k[1..], xs[1..])
      case Wild(name) => map[name := Join(xs, "/")]
  }

  /** A pattern without a wildcard matches the paths of its length that agree with its literals; one that
      ends in a wildcard matches those that agree with what stands before it. */
  lemma {:induction false} MatchesIff(k: Key, xs: seq<string>)
    requires ValidSegments(k)
    ensures
      var wild := k != [] && k[|k| - 1].Wild?;
      var n := if wild then |k| - 1 else |k|;
      Matches(k, xs) <==> && (if wild then n <= |xs| else n == |xs|)
                          && forall i :: 0 <= i < n && k[i].Lit? ==> k[i].text == xs[i]
    decreases |k|
  {
    if k != [] && !k[0].Wild? {
      ValidAfter(k);
      if xs != [] {
        var rest := k[1..];
        MatchesIff(rest, xs[1..]);
        assert rest != [] ==> rest[|rest| - 1] == k[|k| - 1];
        assert forall i :: 0 <= i < |rest| ==> rest[i] == k[i + 1];
        assert forall i :: 0 < i < |k| ==> k[i] == rest[i - 1];
        assert forall i :: 0 <= i < |xs[1..]| ==> xs[1..][i] == xs[i + 1];
      }
    }
  }

  lemma ValidAfter(k: Key)
    requires ValidSegments(k) && k != []
    ensures ValidSegments(k[1..])
  {
  }

  function ValueOf(values: map<string, string>, name: string): string {
    if name in values then values[name] else ""
  }

  /** The pattern's segments with the captured values put back; an empty wildcard adds nothing. */
  function Substitute(k: Key, values: map<string, string>): seq<string> {
    if k == [] then []
    else
      (match k[0]
       case Lit(text) => [text]
       case Param(name) => [ValueOf(values, name)]
       case Wild(name) => if ValueOf(values, name) == "" then [] else [ValueOf(values, name)])
      + Substitute(k[1..], values)
  }

  lemma ValidTail(k: Key)
    requires ValidKey(k) && k != []
    ensures ValidKey(k[1..])
  {
  }

  lemma {:induction false} BindingsAreNames(k: Key, xs: seq<string>)
    requires Matches(k, xs)
    ensures Bindings(k, xs).Keys == Names(k)
  {
    if k != [] {
      assert Names(k) == Names(k[1..]) + (if Captures(k[0]) then {k[0].name} else {}) by {
        forall n | n in Names(k) && !(Captures(k[0]) && n == k[0].name) ensures n in Names(k[1..]) {
          var i :| 0 <= i < |k| && Captures(k[i]) && k[i].name == n;
          assert k[1..][i - 1] == k[i];
        }
        forall n | n in Names(k[1..]) ensures n in Names(k) {
          var i :| 0 <= i < |k[1..]| && Captures(k[1..][i]) && k[1..][i].name == n;
          assert k[i + 1] == k[1..][i];
        }
      }
      if k[0].Wild? {
        assert k[1..] == [];
      } else {
        BindingsAreNames(k[1..], xs[1..]);
      }
    }
  }

  /** Later names never repeat the first, so the first binding survives the union. */
  lemma HeadNameIsFresh(k: Key)
    requires ValidSegments(k) && k != [] && Captures(k[0])
    ensures k[0].name !in Names(k[1..])
  {
    forall i | 0 <= i < |k[1..]| && Captures(k[1..][i]) ensures k[1..][i].name != k[0].name {
      assert k[1..][i] == k[i + 1];
    }
  }

  lemma BindingsStep(k: Key, xs: seq<string>)
    requires ValidSegments(k) && Matches(k, xs) && k != [] && !k[0].Wild?
    ensures xs != [] && Matches(k[1..], xs[1..])
    ensures
      var all, more := Bindings(k, xs), Bindings(k[1..], xs[1..]);
      && (forall n :: n in more ==> n in all && all[n] == more[n])
      && (k[0].Param? ==> k[0].name in all && all[k[0].name] == xs[0])
  {
    hide ValidSegments;
    if k[0].Param? {
      HeadNameIsFresh(k);
      BindingsAreNames(k[1..], xs[1..]);
    }
  }

  lemma WildFirst(k: Key, xs: seq<string>)
    requires Matches(k, xs) && k != [] && k[0].Wild?
    ensures k[0].name in Bindings(k, xs) && Bindings(k, xs)[k[0].name] == Join(xs[0..], "/")
  {
    assert xs[0..] == xs;
  }

  /** Every parameter is bound to the path segment at its own place, a wildcard to the joined rest. */
  lemma {:induction false} BoundInPlace(k: Key, xs: seq<string>, i: nat)
    requires ValidSegments(k) && Matches(k, xs) && i < |k| && Captures(k[i])
    ensures k[i].name in Bindings(k, xs) && i <= |xs|
    ensures k[i].Param? ==> i < |xs| && Bindings(k, xs)[k[i].name] == xs[i]
    ensures k[i].Wild? ==> Bindings(k, xs)[k[i].name] == Join(xs[i..], "/")
    decreases |k|
  {
    hide Matches, Bindings, Join;
    if k[0].Wild? {
      assert i == 0;
      WildFirst(k, xs);
    } else {
      BindingsStep(k, xs);
      if i > 0 {
        ValidAfter(k);
        BoundInPlace(k[1..], xs[1..], i - 1);
        assert xs[1..][i - 1..] == xs[i..];
      }
    }
  }

  predicate EndsFilled(xs: seq<string>) {
    xs != [] ==> xs[|xs| - 1] != ""
  }

  lemma {:induction false} FilledJoin(xs: seq<string>)
    requires EndsFilled(xs) && xs != []
    ensures Join(xs, "/") != ""
  {
    if |xs| > 1 {
      assert |Join(xs, "/")| > 0;
    }
  }

  lemma {:induction false} SubstituteGivesBack(k: Key, xs: seq<string>, values: map<string, string>)
    requires ValidKey(k) && Matches(k, xs) && EndsFilled(xs)
    requires forall n :: n in Bindings(k, xs) ==> n in values && values[n] == Bindings(k, xs)[n]
    ensures Join(Substitute(k, values), "/") == Join(xs, "/")
    ensures Substitute(k, values) == [] <==> xs == []
  {
    if k != [] {
      if k[0].Wild? {
        assert k[1..] == [];
        if xs != [] {
          FilledJoin(xs);
        }
      } else {
        var rest := xs[1..];
        ValidTail(k);
        BindingsAreNames(k[1..], rest);
        if k[0].Param? {
          HeadNameIsFresh(k);
          assert k[0].name in Bindings(k, xs);
        }
        forall n | n in Bindings(k[1..], rest)
          ensures n in values && values[n] == Bindings(k[1..], rest)[n]
        {
          assert n in Bindings(k, xs);
        }
        SubstituteGivesBack(k[1..], rest, values);
        assert Substitute(k, values) == [xs[0]] + Substitute(k[1..], values);
        assert Substitute(k, values)[1..] == Substitute(k[1..], values);
      }
    }
  }

  lemma {:induction false} SplitLast(s: string, sep: char)
    requires s != "" && s[|s| - 1] != sep
    ensures EndsFilled(Split(s, sep))
    decreases |s|
  {
    var i := IndexOf(s, sep);
    if i < |s| {
      SplitLast(s[i + 1..], sep);
    }
  }

  lemma SplitPathEnds(path: string)
    ensures EndsFilled(SplitPath(path))
    ensures Join(SplitPath(path), "/") == Trim(path, "/")
  {
    var t := Trim(path, "/");
    if t != "" {
      SplitLast(t, '/');
      JoinSplit(t, '/');
    }
  }

  /** Putting the captured values back into a matching pattern gives the path without its outer
      slashes, and the captures are exactly the pattern's names. */
  lemma CaptureRoundTrip(k: Key, path: string)
    requires ValidKey(k) && Matches(k, SplitPath(path))
    ensures
      var values := Bindings(k, SplitPath(path));
      && values.Keys == Names(k)
      && Join(Substitute(k, values), "/") == Trim(path, "/")
  {
    var xs := SplitPath(path);
    SplitPathEnds(path);
    BindingsAreNames(k, xs);
    SubstituteGivesBack(k, xs, Bindings(k, xs));
  }

  lemma {:induction false} WildBinding(k: Key, xs: seq<string>)
    requires ValidSegments(k) && Matches(k, xs) && k != [] && k[|k| - 1].Wild?
    ensures |k| <= |xs| + 1
    ensures k[|k| - 1].name in Bindings(k, xs)
    ensures Bindings(k, xs)[k[|k| - 1].name] == Join(xs[|k| - 1..], "/")
  {
    if |k| > 1 {
      var rest := k[1..];
      assert rest[|rest| - 1] == k[|k| - 1];
      WildBinding(rest, xs[1..]);
      assert xs[1..][|rest| - 1..] == xs[|k| - 1..];
    }
  }

  /** A wildcard captures nothing exactly when no segment is left for it. */
  lemma EmptyWildcard(k: Key, xs: seq<string>)
    requires ValidSegments(k) && Matches(k, xs) && k != [] && k[|k| - 1].Wild? && EndsFilled(xs)
    ensures ValueOf(Bindings(k, xs), k[|k| - 1].name) == "" <==> |k| == |xs| + 1
  {
    WildBinding(k, xs);
    var rest := xs[|k| - 1..];
    if rest != [] {
      assert rest[|rest| - 1] == xs[|xs| - 1];
      FilledJoin(rest);
    }
  }

  lemma EmptyWildcardIffNothingLeft(k: Key, path: string)
    requires ValidSegments(k) && Matches(k, SplitPath(path)) && k != [] && k[|k| - 1].Wild?
    ensures ValueOf(Bindings(k, SplitPath(path)), k[|k| - 1].name) == "" <==> |k| == |SplitPath(path)| + 1
  {
    SplitPathEnds(path);
    EmptyWildcard(k, SplitPath(path));
  }
}
