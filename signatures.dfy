/** The signature scan of `load_bin_file` and the choice of the block that is decoded. */
module Signatures {
  import opened Basics
  import opened Search

  /** The keys of the `sequences` dictionary. */
  datatype SeqName = SEQ1 | SEQ2 | SEQ3

  /** Dictionary insertion order: the order in which the scan visits the signatures. */
  const SignatureOrder: seq<SeqName> := [SEQ1, SEQ2, SEQ3]

  const SignatureLength := 14

  /** The decoded block starts 21 bytes after a SEQ1 signature and ends 197 bytes after it. */
  const BlockStart := 21
  const BlockEnd := 197

  /** The bytes of "PIKMINPUZZLE01", "PIKMINPUZZLE02" and "PIKMINPUZZLE03":
      a shared 13-byte prefix and a last byte that is the ASCII digit of the
      signature's number. */
  function Signature(name: SeqName): (sig: seq<Byte>)
    ensures |sig| == SignatureLength
    ensures sig[SignatureLength - 1] == '1' as int + Rank(name)
    ensures forall k :: 0 <= k < SignatureLength - 1 ==> sig[k] == "PIKMINPUZZLE0"[k] as int
  {
    match name
    case SEQ1 => [0x50, 0x49, 0x4B, 0x4D, 0x49, 0x4E, 0x50, 0x55, 0x5A, 0x5A, 0x4C, 0x45, 0x30, 0x31]
    case SEQ2 => [0x50, 0x49, 0x4B, 0x4D, 0x49, 0x4E, 0x50, 0x55, 0x5A, 0x5A, 0x4C, 0x45, 0x30, 0x32]
    case SEQ3 => [0x50, 0x49, 0x4B, 0x4D, 0x49, 0x4E, 0x50, 0x55, 0x5A, 0x5A, 0x4C, 0x45, 0x30, 0x33]
  }

  /** The ASCII text each signature spells. */
  function SignatureText(name: SeqName): string
  {
    match name
    case SEQ1 => "PIKMINPUZZLE01"
    case SEQ2 => "PIKMINPUZZLE02"
    case SEQ3 => "PIKMINPUZZLE03"
  }

  /** Position of a name in the scan order. */
  function Rank(name: SeqName): nat
  {
    match name
    case SEQ1 => 0
    case SEQ2 => 1
    case SEQ3 => 2
  }

  /** The hex constants are the ASCII codes of the signature texts, 14 bytes each. */
  lemma SignatureSpellsText(name: SeqName)
    ensures |Signature(name)| == |SignatureText(name)| == SignatureLength
    ensures forall k :: 0 <= k < SignatureLength ==> Signature(name)[k] == SignatureText(name)[k] as int
  {
  }

  /** The three signatures differ only in their last byte, so no two of them
      can occur at the same position. */
  lemma {:induction false} AtMostOneSignatureAt(data: seq<Byte>, i: int, a: SeqName, b: SeqName)
    requires MatchesAt(data, Signature(a), i) && MatchesAt(data, Signature(b), i)
    ensures a == b
  {
    assert data[i + SignatureLength - 1] == Signature(a)[SignatureLength - 1];
    assert data[i + SignatureLength - 1] == Signature(b)[SignatureLength - 1];
  }

  /** One entry `(idx, seq_name, seq_bytes)` of the `occurrences` list. */
  datatype Occurrence = Occurrence(idx: nat, name: SeqName, sig: seq<Byte>)

  /** The entries recorded for signature `name`, whose bytes are `sig`, at
      the given positions. */
  function Tagged(positions: seq<nat>, name: SeqName, sig: seq<Byte>): (occ: seq<Occurrence>)
    ensures |occ| == |positions|
    ensures forall k :: 0 <= k < |occ| ==> occ[k] == Occurrence(positions[k], name, sig)
  {
    seq(|positions|, k requires 0 <= k < |positions| => Occurrence(positions[k], name, sig))
  }

  /** Reference definition of the entries the scan records for one signature. */
  function Hits(data: seq<Byte>, name: SeqName, sig: seq<Byte>): seq<Occurrence>
  {
    Tagged(MatchPositions(data, sig, 0), name, sig)
  }

  /** The entries recorded after scanning for each of `names` in turn. */
  function Grouped(data: seq<Byte>, names: seq<SeqName>): seq<Occurrence>
    decreases |names|
  {
    if names == [] then []
    else
      var name := names[|names| - 1];
      Grouped(data, names[..|names| - 1]) + Hits(data, name, Signature(name))
  }

  /** The whole `occurrences` list, as the reference search defines it. */
  function Occurrences(data: seq<Byte>): seq<Occurrence>
  {
    Grouped(data, SignatureOrder)
  }

  /** The scan loop of `load_bin_file`: for each `(seq_name, seq_bytes)` of
      the dictionary in turn, the inner loop records its hits. The result is
      the reference list. */
  method ScanSignatures(data: seq<Byte>) returns (occurrences: seq<Occurrence>)
    ensures occurrences == Occurrences(data)
  {
    occurrences := [];
    for n := 0 to |SignatureOrder|
      invariant occurrences == Grouped(data, SignatureOrder[..n])
    {
      var name := SignatureOrder[n];
      occurrences := RecordHits(data, name, Signature(name), occurrences);
      assert SignatureOrder[..n + 1][..n] == SignatureOrder[..n];
    }
    assert SignatureOrder[..|SignatureOrder|] == SignatureOrder;
  }

  /** The inner `while True` loop for one signature: call `find` from
      `start = 0`, append the hit and resume one byte after it, until `find`
      reports -1. */
  method RecordHits(data: seq<Byte>, name: SeqName, sig: seq<Byte>, occurrences: seq<Occurrence>)
    returns (extended: seq<Occurrence>)
    ensures extended == occurrences + Hits(data, name, sig)
  {
    extended := occurrences;
    ghost var found: seq<nat> := [];
    var start := 0;
    while true
      invariant start <= |data| + 1
      invariant extended == occurrences + Tagged(found, name, sig)
      invariant found + MatchPositions(data, sig, start) == MatchPositions(data, sig, 0)
      decreases |data| + 1 - start
    {
      var idx := Find(data, sig, start);
      if idx == -1 {
        MatchPositionsSkip(data, sig, start, |data| + 1);
        break;
      }
      MatchPositionsSkip(data, sig, start, idx);
      assert MatchPositions(data, sig, idx) == [idx] + MatchPositions(data, sig, idx + 1);
      extended := extended + [Occurrence(idx, name, sig)];
      found := found + [idx];
      start := idx + 1;
    }
    assert found == MatchPositions(data, sig, 0);
  }

  /** The hits for one signature are exactly its occurrences in the data,
      in strictly increasing order of position. */
  lemma HitsCharacterized(data: seq<Byte>, name: SeqName, sig: seq<Byte>)
    ensures forall o: Occurrence :: o in Hits(data, name, sig) <==> o.name == name && o.sig == sig && MatchesAt(data, sig, o.idx)
    ensures var hits := Hits(data, name, sig);
            forall j, k :: 0 <= j < k < |hits| ==> hits[j].name == name && hits[j].idx < hits[k].idx
  {
    var ps := MatchPositions(data, sig, 0);
    var hits := Hits(data, name, sig);
    MatchPositionsCharacterized(data, sig, 0);
    forall o: Occurrence | o in hits ensures o.name == name && o.sig == sig && MatchesAt(data, sig, o.idx) {
      var k :| 0 <= k < |hits| && hits[k] == o;
      assert ps[k] in ps;
    }
    forall o: Occurrence | o.name == name && o.sig == sig && MatchesAt(data, sig, o.idx) ensures o in hits {
      assert o.idx in ps;
      var j :| 0 <= j < |ps| && ps[j] == o.idx;
      assert hits[j] == o;
    }
  }

  /** The list is the SEQ1 hits, then the SEQ2 hits, then the SEQ3 hits. */
  lemma OccurrencesGroups(data: seq<Byte>)
    ensures Occurrences(data) ==
      Hits(data, SEQ1, Signature(SEQ1)) + Hits(data, SEQ2, Signature(SEQ2)) + Hits(data, SEQ3, Signature(SEQ3))
  {
    assert SignatureOrder[..2] == [SEQ1, SEQ2];
    assert [SEQ1, SEQ2][..1] == [SEQ1];
    assert [SEQ1][..0] == [];
  }

  /** Soundness and completeness: an entry is recorded exactly when its
      stored bytes are the signature stored under its name and they occur
      in the data at its position (overlapping occurrences included). */
  lemma OccurrenceRecorded(data: seq<Byte>, o: Occurrence)
    ensures o in Occurrences(data) <==> o.sig == Signature(o.name) && MatchesAt(data, o.sig, o.idx)
  {
    OccurrencesGroups(data);
    HitsCharacterized(data, SEQ1, Signature(SEQ1));
    HitsCharacterized(data, SEQ2, Signature(SEQ2));
    HitsCharacterized(data, SEQ3, Signature(SEQ3));
  }

  /** Entry `a` comes before entry `b` in the scan: an earlier signature, or
      the same signature at a lower position. */
  predicate Precedes(a: Occurrence, b: Occurrence)
  {
    Rank(a.name) < Rank(b.name) || (a.name == b.name && a.idx < b.idx)
  }

  /** The list is grouped SEQ1, SEQ2, SEQ3, and within a group the positions
      strictly increase; in particular no entry is recorded twice. */
  lemma OccurrencesOrdered(data: seq<Byte>)
    ensures var occ := Occurrences(data);
            forall j, k :: 0 <= j < k < |occ| ==> Precedes(occ[j], occ[k])
  {
    OccurrencesGroups(data);
    var occ := Occurrences(data);
    var h1 := Hits(data, SEQ1, Signature(SEQ1));
    var h2 := Hits(data, SEQ2, Signature(SEQ2));
    var h3 := Hits(data, SEQ3, Signature(SEQ3));
    HitsCharacterized(data, SEQ1, Signature(SEQ1));
    HitsCharacterized(data, SEQ2, Signature(SEQ2));
    HitsCharacterized(data, SEQ3, Signature(SEQ3));
    forall j, k | 0 <= j < k < |occ| ensures Precedes(occ[j], occ[k]) {
      if k < |h1| {
        assert occ[j] == h1[j] && occ[k] == h1[k];
      } else if j < |h1| {
        assert occ[j] in h1;
        assert occ[k] in h2 + h3;
      } else if k < |h1| + |h2| {
        assert occ[j] == h2[j - |h1|] && occ[k] == h2[k - |h1|];
      } else if j < |h1| + |h2| {
        assert occ[j] in h2;
        assert occ[k] in h3;
      } else {
        assert occ[j] == h3[j - |h1| - |h2|] && occ[k] == h3[k - |h1| - |h2|];
      }
    }
  }

  /** The first hit for a signature, when there is one, is at the lowest
      position where it occurs, the one `find` returns from position 0. */
  lemma FirstHit(data: seq<Byte>, name: SeqName, sig: seq<Byte>)
    ensures Hits(data, name, sig) != [] <==> exists i :: MatchesAt(data, sig, i)
    ensures Hits(data, name, sig) != [] ==> Hits(data, name, sig)[0] == Occurrence(Find(data, sig, 0), name, sig)
  {
    FindIsFirstMatch(data, sig);
    var pos := Find(data, sig, 0);
    if pos != -1 {
      assert MatchesAt(data, sig, pos);
    }
  }

  /** The block handed to the grid decoder: only the first recorded entry is
      considered, and only a SEQ1 entry yields a block, the bytes from 21 up
      to 197 past its position. The block holds at most 176 bytes. */
  function SelectBlock(data: seq<Byte>, occurrences: seq<Occurrence>): (block: Option<seq<Byte>>)
    ensures block.Some? <==> |occurrences| > 0 && occurrences[0].name == SEQ1
    ensures block.Some? ==> |block.value| <= BlockEnd - BlockStart
  {
    if |occurrences| > 0 && occurrences[0].name == SEQ1 then
      var pos := occurrences[0].idx;
      Some(Slice(data, pos + BlockStart, pos + BlockEnd))
    else None
  }

  /** A block is decoded exactly when SEQ1 occurs in the data (`find`
      from position 0 succeeds), and it is the slice
      `data[pos + 21 : pos + 197]` at the lowest SEQ1 position `pos`:
      at most 176 bytes, fewer when the data ends sooner. */
  lemma SelectedBlock(data: seq<Byte>)
    ensures var pos := Find(data, Signature(SEQ1), 0);
            SelectBlock(data, Occurrences(data)) ==
              if pos == -1 then None else Some(Slice(data, pos + BlockStart, pos + BlockEnd))
  {
    OccurrencesGroups(data);
    var occ := Occurrences(data);
    FirstHit(data, SEQ1, Signature(SEQ1));
    var pos := Find(data, Signature(SEQ1), 0);
    if pos != -1 {
      assert MatchesAt(data, Signature(SEQ1), pos);
      assert occ[0] == Hits(data, SEQ1, Signature(SEQ1))[0];
    } else if |occ| > 0 {
      FirstHit(data, SEQ2, Signature(SEQ2));
      if Hits(data, SEQ2, Signature(SEQ2)) != [] {
        assert occ[0] == Hits(data, SEQ2, Signature(SEQ2))[0];
      } else {
        assert occ[0] == Hits(data, SEQ3, Signature(SEQ3))[0];
        HitsCharacterized(data, SEQ3, Signature(SEQ3));
      }
    }
  }
}
