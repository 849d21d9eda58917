/**
 * The filter applied to the listing in load_procedures_from_instance: keep the
 * procedures of the curated repository that the operator cannot edit, in
 * their listing order.
 */
module Selection {
  import opened Records

  const CuratedType := "curated"

  predicate IsCuratedLocked(p: ProcedureSummary)
  {
    p.repository.repoType == CuratedType && !p.isEditable
  }

  function SelectCurated(ps: seq<ProcedureSummary>): (r: seq<ProcedureSummary>)
    ensures |r| <= |ps|
    ensures forall p :: p in r ==> p in ps && IsCuratedLocked(p)
    ensures forall p :: p in ps && IsCuratedLocked(p) ==> p in r
  {
    if ps == [] then []
    else (if IsCuratedLocked(ps[0]) then [ps[0]] else []) + SelectCurated(ps[1..])
  }

  /** `sub` can be obtained from `s` by deleting elements, so it keeps their relative order. */
  ghost predicate IsSubsequence(sub: seq<ProcedureSummary>, s: seq<ProcedureSummary>)
    decreases |s|
  {
    if sub == [] then true
    else if s == [] then false
    else (sub[0] == s[0] && IsSubsequence(sub[1..], s[1..])) || IsSubsequence(sub, s[1..])
  }

  /** The selection keeps the listing order. */
  lemma {:induction false} SelectCuratedKeepsOrder(ps: seq<ProcedureSummary>)
    ensures IsSubsequence(SelectCurated(ps), ps)
  {
    if ps != [] {
      SelectCuratedKeepsOrder(ps[1..]);
      if !IsCuratedLocked(ps[0]) {
        assert SelectCurated(ps) == SelectCurated(ps[1..]);
      } else {
        assert SelectCurated(ps)[1..] == SelectCurated(ps[1..]);
      }
    }
  }

  /** Every kept procedure is kept as often as it is listed, every other one never. */
  lemma {:induction false} SelectCuratedCounts(ps: seq<ProcedureSummary>, p: ProcedureSummary)
    ensures multiset(SelectCurated(ps))[p] == if IsCuratedLocked(p) then multiset(ps)[p] else 0
  {
    if ps != [] {
      SelectCuratedCounts(ps[1..], p);
      assert ps == [ps[0]] + ps[1..];
    }
  }

  /** Filtering a concatenation filters each part: the order across parts is kept. */
  lemma {:induction false} SelectCuratedAppend(a: seq<ProcedureSummary>, b: seq<ProcedureSummary>)
    ensures SelectCurated(a + b) == SelectCurated(a) + SelectCurated(b)
  {
    if a != [] {
      assert (a + b)[0] == a[0];
      assert (a + b)[1..] == a[1..] + b;
      SelectCuratedAppend(a[1..], b);
      var head := if IsCuratedLocked(a[0]) then [a[0]] else [];
      calc {
        SelectCurated(a + b);
        head + SelectCurated(a[1..] + b);
        head + (SelectCurated(a[1..]) + SelectCurated(b));
        (head + SelectCurated(a[1..])) + SelectCurated(b);
        SelectCurated(a) + SelectCurated(b);
      }
    } else {
      assert a + b == b;
    }
  }

}
