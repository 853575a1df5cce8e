/** Per-field last-write-wins merge of `updatedAtMap` values
    (backend/internal/records/lww.go). */
module Lww {
  import opened Wrappers
  import opened Sequences

  /** A timestamp as sent, with its RFC 3339 (section 5.6) reading if it has one. */
  datatype Stamp = Stamp(text: string, instant: Option<int>)

  type StampMap = map<string, Stamp>

  datatype BadTimestamp = BadTimestamp

  predicate Parseable(m: StampMap) {
    forall k :: k in m ==> m[k].instant.Some?
  }

  /** Exactly the timestamps the merge looks at are readable: every incoming one,
      and the stored one of every field that is also incoming. */
  predicate Mergeable(current: StampMap, incoming: StampMap) {
    forall k :: k in incoming ==>
      incoming[k].instant.Some? && (k in current ==> current[k].instant.Some?)
  }

  /** The incoming value of field `k` is new or strictly later. */
  predicate Wins(current: StampMap, incoming: StampMap, k: string)
    requires Mergeable(current, incoming)
  {
    k in incoming &&
    (k in current ==> incoming[k].instant.value > current[k].instant.value)
  }

  function Merged(current: StampMap, incoming: StampMap): StampMap
    requires Mergeable(current, incoming)
  {
    map k | k in current.Keys + incoming.Keys ::
      if Wins(current, incoming, k) then incoming[k] else current[k]
  }

  ghost predicate HasWinner(current: StampMap, incoming: StampMap)
    requires Mergeable(current, incoming)
  {
    exists k :: Wins(current, incoming, k)
  }

  /** The effect of one more incoming field on a merge in progress. */
  lemma MergeOneField(current: StampMap, part: StampMap, k: string, s: Stamp)
    requires Mergeable(current, part) && k !in part
    requires s.instant.Some? && (k in current ==> current[k].instant.Some?)
    ensures var wins := k in current ==> s.instant.value > current[k].instant.value;
            && Mergeable(current, part[k := s])
            && Merged(current, part[k := s])
               == (if wins then Merged(current, part)[k := s] else Merged(current, part))
            && (HasWinner(current, part[k := s]) <==> HasWinner(current, part) || wins)
  {
    var wins := k in current ==> s.instant.value > current[k].instant.value;
    var more := part[k := s];
    assert Mergeable(current, more);
    assert Wins(current, more, k) <==> wins;
    assert forall o :: o != k ==> (Wins(current, more, o) <==> Wins(current, part, o));
    assert !Wins(current, part, k);
    assert Merged(current, more)
        == if wins then Merged(current, part)[k := s] else Merged(current, part);
  }

  /** `MergeUpdatedAtMap`. Go iterates a map in no particular order; the loop picks
      keys arbitrarily, and its result is nevertheless a function of the maps. */
  method MergeUpdatedAtMap(current: StampMap, incoming: StampMap)
    returns (r: Result<(StampMap, bool), BadTimestamp>)
    ensures r.Success? <==> Mergeable(current, incoming)
    ensures r.Success? ==> r.value == (Merged(current, incoming), HasWinner(current, incoming))
  {
    var merged, hasWinner := current, false;
    var todo := incoming.Keys;
    ghost var part: StampMap := map[];
    assert Merged(current, part) == current;
    while todo != {}
      invariant todo <= incoming.Keys
      invariant part.Keys == incoming.Keys - todo
      invariant forall k :: k in part ==> part[k] == incoming[k]
      invariant Mergeable(current, part)
      invariant merged == Merged(current, part)
      invariant hasWinner <==> HasWinner(current, part)
      decreases todo
    {
      var k :| k in todo;
      var inVal := incoming[k];
      if k !in merged {
        if inVal.instant.None? { return Failure(BadTimestamp); }
        MergeOneField(current, part, k, inVal);
        merged := merged[k := inVal];
        hasWinner := true;
      } else {
        var curVal := merged[k];
        assert curVal == current[k];
        if inVal.instant.None? || curVal.instant.None? { return Failure(BadTimestamp); }
        MergeOneField(current, part, k, inVal);
        if inVal.instant.value > curVal.instant.value {
          merged := merged[k := inVal];
          hasWinner := true;
        }
      }
      part := part[k := inVal];
      todo := todo - {k};
    }
    assert part == incoming;
    return Success((merged, hasWinner));
  }

  /** The instants alone; ties between different texts of one instant disappear here. */
  ghost function Latest(m: StampMap): map<string, int>
    requires Parseable(m)
  {
    map k | k in m :: m[k].instant.value
  }

  ghost function Join(a: map<string, int>, b: map<string, int>): map<string, int> {
    map k | k in a.Keys + b.Keys ::
      if k !in a || (k in b && b[k] > a[k]) then b[k] else a[k]
  }

  /** `hasWinner` is reported exactly when the merge changes the current map. */
  lemma WinnerIffChanged(current: StampMap, incoming: StampMap)
    requires Mergeable(current, incoming)
    ensures HasWinner(current, incoming) <==> Merged(current, incoming) != current
  {
  }

  /** One merge is the join of the instants. */
  lemma MergeIsJoin(current: StampMap, incoming: StampMap)
    requires Parseable(current) && Parseable(incoming)
    ensures Parseable(Merged(current, incoming))
    ensures Latest(Merged(current, incoming)) == Join(Latest(current), Latest(incoming))
  {
  }

  ghost predicate AllParseable(ms: seq<StampMap>) {
    forall i :: 0 <= i < |ms| ==> Parseable(ms[i])
  }

  /** Left-to-right application of a list of maps. */
  ghost function MergeAll(init: StampMap, ms: seq<StampMap>): (m: StampMap)
    requires Parseable(init) && AllParseable(ms)
    ensures Parseable(m)
    decreases |ms|
  {
    if ms == [] then init
    else Merged(MergeAll(init, ms[..|ms| - 1]), ms[|ms| - 1])
  }

  /** `t` is the latest instant any of the maps gives field `k`. */
  ghost predicate IsLatest(init: StampMap, ms: set<StampMap>, k: string, t: int) {
    && (k in init ==> init[k].instant.Some? && init[k].instant.value <= t)
    && (forall m: StampMap :: m in ms && k in m ==>
          m[k].instant.Some? && m[k].instant.value <= t)
    && ((k in init && init[k].instant == Some(t))
        || exists m: StampMap :: m in ms && k in m && m[k].instant == Some(t))
  }

  /** A fold holds, for each field, the latest instant found anywhere. */
  lemma {:induction false} FoldIsLatest(init: StampMap, ms: seq<StampMap>, k: string)
    requires Parseable(init) && AllParseable(ms)
    ensures k in MergeAll(init, ms) <==> (k in init || exists m: StampMap :: m in Elements(ms) && k in m)
    ensures k in MergeAll(init, ms) ==>
              IsLatest(init, Elements(ms), k, MergeAll(init, ms)[k].instant.value)
  {
    if ms != [] {
      var front, last := ms[..|ms| - 1], ms[|ms| - 1];
      FoldIsLatest(init, front, k);
      assert Elements(ms) == Elements(front) + {last} by {
        assert ms == front + [last];
        forall m | m in Elements(front) + {last} ensures m in Elements(ms) {
          if m == last { assert ms[|ms| - 1] == m; }
          else { var i :| 0 <= i < |front| && front[i] == m; assert ms[i] == m; }
        }
      }
      var before := MergeAll(init, front);
      assert last in Elements(ms);
      if k in before && k in last {
        assert Wins(before, last, k) || !Wins(before, last, k);
      }
    }
  }

  /** Order and repetition of the maps do not matter: two lists with the same
      elements leave the same latest instant for every field. */
  lemma FoldIgnoresOrderAndRepetition(init: StampMap, xs: seq<StampMap>, ys: seq<StampMap>)
    requires Parseable(init) && AllParseable(xs) && AllParseable(ys)
    requires Elements(xs) == Elements(ys)
    ensures Latest(MergeAll(init, xs)) == Latest(MergeAll(init, ys))
  {
    var lx, ly := Latest(MergeAll(init, xs)), Latest(MergeAll(init, ys));
    forall k
      ensures k in lx <==> k in ly
      ensures k in lx ==> lx[k] == ly[k]
    {
      FoldIsLatest(init, xs, k);
      FoldIsLatest(init, ys, k);
    }
  }
}
