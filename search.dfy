/** Substring search over the bytes of a card file. */
module Search {
  import opened Basics

  /** `sig` occurs in `data` starting at position `i`. */
  predicate MatchesAt(data: seq<Byte>, sig: seq<Byte>, i: int)
  {
    0 <= i && i + |sig| <= |data| && forall k :: 0 <= k < |sig| ==> data[i + k] == sig[k]
  }

  /** Python's `data.find(sig, start)` for a non-negative `start`: the lowest
      position at or after `start` where `sig` occurs, or -1 when there is none. */
  function Find(data: seq<Byte>, sig: seq<Byte>, start: nat): (r: int)
    ensures r == -1 || (start <= r && MatchesAt(data, sig, r))
    ensures r != -1 ==> forall i :: start <= i < r ==> !MatchesAt(data, sig, i)
    ensures r == -1 ==> forall i :: start <= i ==> !MatchesAt(data, sig, i)
    decreases |data| - start
  {
    if start + |sig| > |data| then -1
    else if MatchesAt(data, sig, start) then start
    else Find(data, sig, start + 1)
  }

  /** Reference definition: every position at or after `from` where `sig`
      occurs, in ascending order, found by trying each position in turn. */
  function MatchPositions(data: seq<Byte>, sig: seq<Byte>, from: nat): seq<nat>
    decreases |data| - from
  {
    if from > |data| then []
    else (if MatchesAt(data, sig, from) then [from] else []) + MatchPositions(data, sig, from + 1)
  }

  /** Every element is smaller than every element after it. */
  predicate StrictlyIncreasing(s: seq<int>)
  {
    forall j, k :: 0 <= j < k < |s| ==> s[j] < s[k]
  }

  /** The reference list holds exactly the match positions at or after
      `from`, each once, in strictly increasing order. */
  lemma {:induction false} MatchPositionsCharacterized(data: seq<Byte>, sig: seq<Byte>, from: nat)
    ensures forall i :: i in MatchPositions(data, sig, from) <==> from <= i && MatchesAt(data, sig, i)
    ensures StrictlyIncreasing(MatchPositions(data, sig, from))
    decreases |data| - from
  {
    if from <= |data| {
      var rest := MatchPositions(data, sig, from + 1);
      MatchPositionsCharacterized(data, sig, from + 1);
      assert forall k :: 0 <= k < |rest| ==> from < rest[k] by {
        forall k | 0 <= k < |rest| ensures from < rest[k] {
          assert rest[k] in rest;
        }
      }
      var head: seq<nat> := if MatchesAt(data, sig, from) then [from] else [];
      var ps := head + rest;
      assert ps == MatchPositions(data, sig, from);
      forall j, k | 0 <= j < k < |ps| ensures ps[j] < ps[k] {
        if j < |head| {
          assert ps[j] == from && ps[k] == rest[k - 1];
        } else {
          assert ps[j] == rest[j - |head|] && ps[k] == rest[k - |head|];
        }
      }
    }
  }

  /** Positions without a match contribute nothing to the reference list. */
  lemma {:induction false} MatchPositionsSkip(data: seq<Byte>, sig: seq<Byte>, from: nat, to: nat)
    requires from <= to <= |data| + 1
    requires forall i :: from <= i < to ==> !MatchesAt(data, sig, i)
    ensures MatchPositions(data, sig, from) == MatchPositions(data, sig, to)
    decreases (to as int) - (from as int)
  {
    if from < to {
      MatchPositionsSkip(data, sig, from + 1, to);
    }
  }

  /** Searching from position 0 finds the first entry of the reference list. */
  lemma FindIsFirstMatch(data: seq<Byte>, sig: seq<Byte>)
    ensures var ps := MatchPositions(data, sig, 0);
            (ps == [] <==> Find(data, sig, 0) == -1) && (ps != [] ==> ps[0] == Find(data, sig, 0))
  {
    var ps := MatchPositions(data, sig, 0);
    var pos := Find(data, sig, 0);
    MatchPositionsCharacterized(data, sig, 0);
    if ps != [] {
      assert ps[0] in ps;
      assert pos in ps;
      var m :| 0 <= m < |ps| && ps[m] == pos;
      assert ps[0] <= ps[m];
    }
    if pos != -1 {
      assert pos in ps;
    }
  }
}
