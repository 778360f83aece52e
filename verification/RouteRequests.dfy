/** Registrations and requests in terms of the strings they are given: which registrations are refused, and
    which path a request target is looked up as. */
module RouteRequests {
  import opened Text
  import opened RoutePattern
  import opened RouteNodes
  import opened RouteOrder
  import opened Router

  // ----- registrations -------------------------------------------------------------------------

  predicate Blanks(s: string) {
    exists i :: 0 <= i < |s| && (s[i] == ' ' || s[i] == '\t' || s[i] == '\r' || s[i] == '\n')
  }

  lemma UpperKeepsBlanks(m: string)
    ensures ToUpper(m) != ANY_METHOD && ContainsAny(ToUpper(m), " \t\r\n") <==> Blanks(m)
  {
    var blanks, u := " \t\r\n", ToUpper(m);
    forall i | 0 <= i < |m|
      ensures u[i] in blanks <==> m[i] == ' ' || m[i] == '\t' || m[i] == '\r' || m[i] == '\n'
    {
    }
  }

  /** A registration is refused for a blank or line break in its method, a path without a leading slash, a
      missing handler, or a segment that cannot be a capture, and the first of these is reported. An
      accepted one is for the upper-cased method, as a pattern when the path has a mark. */
  lemma RegistrationIff(r: Registration)
    ensures
      var c, rooted := Planned(r), r.path != "" && r.path[0] == '/';
      && (c == Refused(InvalidRouteMethod) <==> Blanks(r.method_))
      && (c == Refused(MissingHandler) <==> !Blanks(r.method_) && rooted && r.handler == Nil)
      && (c == Refused(InvalidRoutePath) <==>
            && !Blanks(r.method_)
            && (!rooted || (r.handler != Nil && HasMark(r.path) && !GoodSegments(SplitPath(r.path)))))
      && (c.Static? ==> !HasMark(r.path) && c == Static(r.path, ToUpper(r.method_), r.handler.id))
      && (c.Dynamic? ==>
            && HasMark(r.path) && GoodSegments(SplitPath(r.path))
            && c == Dynamic(Route(r.path, ClassifyAll(SplitPath(r.path)), map[ToUpper(r.method_) := r.handler.id])))
  {
    hide HasPathParams, HasMark, ValidSegments, GoodSegments, SplitPath, ContainsAny, Blanks, ToUpper;
    UpperKeepsBlanks(r.method_);
    AcceptedIff(SplitPath(r.path));
    assert HasPrefix(r.path, "/") <==> r.path != "" && r.path[0] == '/';
    if HasPrefix(r.path, "/") {
      PatternIff(r.path);
    }
  }

  // ----- request targets -----------------------------------------------------------------------

  lemma StaticKnown(log: seq<Registration>, path: string, m: string)
    requires !HasPathParams(path) && LastFor(log, path, m).Some?
    ensures path in Build(log).statics && MethodsOf(Build(log), path) == Build(log).statics[path]
  {
    hide HasPathParams, LastFor, ValidState, Build;
    BuildIsValid(log);
    LastRegistrationWins(log);
    KnownByMethods(Build(log), path);
    assert m in MethodsOf(Build(log), path);
  }

  /** A request for a registered static path, with or without a query, is answered by the handler
      registered last for its method in upper case, failing that by the one registered last for any method,
      and refused by 405 when there is neither. */
  lemma StaticPathAnswers(log: seq<Registration>, path: string, n: string, method_: string, target: string)
    requires HasPrefix(path, "/") && !HasMark(path) && LastFor(log, path, n).Some?
    requires TargetOf(target, path)
    ensures
      var out, m := Dispatch(Build(log), method_, target), ToUpper(method_);
      match LastFor(log, path, m)
      case Some(h) => out == Run(h, map[])
      case None =>
        match LastFor(log, path, "")
        case Some(h) => out == Run(h, map[])
        case None => out.MethodNotAllowed?
  {
    hide HasPathParams, HasMark, LastFor, Build, TargetOf, ToUpper, KindsApart, AllowHeader;
    PatternIff(path);
    StaticKnown(log, path, n);
    LastRegistrationWins(log);
    QueryIsIgnored(Build(log), method_, target, path);
    var m := ToUpper(method_);
    assert m in MethodsOf(Build(log), path) <==> LastFor(log, path, m).Some?;
    assert "" in MethodsOf(Build(log), path) <==> LastFor(log, path, "").Some?;
  }
}
