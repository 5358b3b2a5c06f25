/** UriHandlers.match and UriHandlers.mapMatched: of the handlers whose template matches a
    path, the best-ranked under compareTo, and among equally ranked ones the first in
    registration order (a stable sort followed by findFirst). */
module UriHandlers {
  import opened Wrappers
  import opened UriTemplate

  /** A template's match result when it is a candidate for the path: it matches and, when
      exact, leaves no remainder (the `r -> r.getRemaining() == null` filter of
      ResourceMethods.findMethod). */
  function Candidate(t: Template, path: string, exact: bool): (r: Option<MatchResult>)
    ensures r.Some? <==> Match(t, path).Some? && (exact ==> Match(t, path).value.remaining.None?)
    ensures r.Some? ==> r == Match(t, path)
  {
    var m := Match(t, path);
    if m.Some? && (exact ==> m.value.remaining.None?) then m else None
  }

  function Candidates(ts: seq<Template>, path: string, exact: bool): (cs: seq<Option<MatchResult>>)
    ensures |cs| == |ts|
    ensures forall i :: 0 <= i < |ts| ==> cs[i] == Candidate(ts[i], path, exact)
  {
    seq(|ts|, i requires 0 <= i < |ts| => Candidate(ts[i], path, exact))
  }

  /** Candidate k is the first of the first n that no other candidate ranks before. */
  predicate IsFirstBest(cs: seq<Option<MatchResult>>, n: nat, k: nat)
    requires n <= |cs|
  {
    && k < n
    && cs[k].Some?
    && (forall j :: 0 <= j < n && cs[j].Some? ==> Compare(cs[k].value, cs[j].value) <= 0)
    && (forall j :: 0 <= j < k && cs[j].Some? ==> Compare(cs[k].value, cs[j].value) < 0)
  }

  /** The best of the first n candidates, with its match result. A later candidate replaces
      the one held only when it ranks strictly before it. */
  function Best(cs: seq<Option<MatchResult>>, n: nat): (r: Option<(nat, MatchResult)>)
    requires n <= |cs|
    ensures r.None? <==> forall j :: 0 <= j < n ==> cs[j].None?
    ensures r.Some? ==> IsFirstBest(cs, n, r.value.0) && cs[r.value.0] == Some(r.value.1)
  {
    if n == 0 then None
    else
      var prev := Best(cs, n - 1);
      match cs[n - 1]
      case None => prev
      case Some(m) =>
        match prev
        case None => Some((n - 1, m))
        case Some((i, b)) =>
          if Compare(m, b) < 0 then
            assert forall j :: 0 <= j < n - 1 && cs[j].Some? ==> Compare(m, cs[j].value) < 0 by {
              forall j | 0 <= j < n - 1 && cs[j].Some? ensures Compare(m, cs[j].value) < 0 {
                CompareIsTotalPreorder(m, b, cs[j].value);
              }
            }
            Some((n - 1, m))
          else
            CompareIsTotalPreorder(b, m, m);
            prev
  }

  /** The best candidate is unique: any candidate meeting the description is the one chosen. */
  lemma FirstBestIsUnique(cs: seq<Option<MatchResult>>, n: nat, k: nat)
    requires n <= |cs| && IsFirstBest(cs, n, k)
    ensures Best(cs, n).Some? && Best(cs, n).value.0 == k
  {
    var i := Best(cs, n).value.0;
    CompareIsTotalPreorder(cs[k].value, cs[i].value, cs[i].value);
  }

  /** UriHandlers.match over the templates of a list of handlers: the index of the chosen
      handler and its match result, or None when no template is a candidate. */
  function Choose(ts: seq<Template>, path: string, exact: bool): (r: Option<(nat, MatchResult)>)
    ensures r.None? <==> forall j :: 0 <= j < |ts| ==> Candidate(ts[j], path, exact).None?
    ensures r.Some? ==> r.value.0 < |ts| && Match(ts[r.value.0], path) == Some(r.value.1)
    ensures r.Some? ==> IsFirstBest(Candidates(ts, path, exact), |ts|, r.value.0)
    ensures r.Some? && exact ==> r.value.1.remaining.None?
  {
    var cs := Candidates(ts, path, exact);
    Best(cs, |ts|)
  }
}
