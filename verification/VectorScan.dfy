/**
 The three header-block scans of bench/scan_bench.cpp: byte by byte, by a library
 search, and in vectors of any number of lanes. All find the first terminator and
 tell whether an illegal control byte comes before it.
 */
module VectorScan {
  import opened Text
  import opened Bits

  const TAB: Byte := 0x09
  const CARRIAGE_RETURN: Byte := 0x0D
  const LINE_FEED: Byte := 0x0A
  const DELETE: Byte := 0x7F
  const TERMINATOR: seq<Byte> := [CARRIAGE_RETURN, LINE_FEED, CARRIAGE_RETURN, LINE_FEED]
  const TERMINATOR_BYTES := 4

  datatype ScanResult = ScanResult(terminatorOffset: Option<nat>, hasIllegalControl: bool)

  predicate IsIllegalControl(c: Byte) {
    if c == DELETE then true else if c >= 0x20 then false else c != TAB && c != CARRIAGE_RETURN && c != LINE_FEED
  }

  // ------------------------------------------------------------------- meaning

  predicate TerminatorAt(s: seq<Byte>, t: int) {
    0 <= t <= |s| - TERMINATOR_BYTES && s[t..t + TERMINATOR_BYTES] == TERMINATOR
  }

  predicate IllegalIn(s: seq<Byte>, lo: nat, hi: nat)
    requires hi <= |s|
  {
    exists i :: lo <= i < hi && IsIllegalControl(s[i])
  }

  predicate NoTerminatorBefore(s: seq<Byte>, t: nat) { forall i :: 0 <= i < t ==> !TerminatorAt(s, i) }

  /** The result names the first terminator, and the flag is about the bytes before it. */
  predicate Scans(s: seq<Byte>, r: ScanResult) {
    match r.terminatorOffset
    case None => NoTerminatorBefore(s, |s|) && (r.hasIllegalControl <==> IllegalIn(s, 0, |s|))
    case Some(t) => TerminatorAt(s, t) && NoTerminatorBefore(s, t) && (r.hasIllegalControl <==> IllegalIn(s, 0, t))
  }

  /** There is one right result, so any two scans agree. */
  lemma ScansAgree(s: seq<Byte>, a: ScanResult, b: ScanResult)
    requires Scans(s, a) && Scans(s, b)
    ensures a == b
  {
    if a.terminatorOffset.Some? { assert TerminatorAt(s, a.terminatorOffset.value); }
    if b.terminatorOffset.Some? { assert TerminatorAt(s, b.terminatorOffset.value); }
  }

  lemma TerminatorBytes(s: seq<Byte>, t: int)
    ensures TerminatorAt(s, t) <==>
            0 <= t <= |s| - 4 && s[t] == CARRIAGE_RETURN && s[t + 1] == LINE_FEED && s[t + 2] == CARRIAGE_RETURN && s[t + 3] == LINE_FEED
  {
    if 0 <= t <= |s| - 4 {
      var piece := s[t..t + 4];
      assert piece[0] == s[t] && piece[1] == s[t + 1] && piece[2] == s[t + 2] && piece[3] == s[t + 3];
      if s[t] == CARRIAGE_RETURN && s[t + 1] == LINE_FEED && s[t + 2] == CARRIAGE_RETURN && s[t + 3] == LINE_FEED {
        assert piece == TERMINATOR;
      }
    }
  }

  // -------------------------------------------------------------------- scalar

  method ScanBytewise(block: seq<Byte>) returns (r: ScanResult)
    ensures Scans(block, r)
  {
    r := ScanResult(None, false);
    for index := 0 to |block|
      invariant r.terminatorOffset.None? && NoTerminatorBefore(block, index)
      invariant r.hasIllegalControl <==> IllegalIn(block, 0, index)
    {
      var character := block[index];
      TerminatorBytes(block, index);
      if character == CARRIAGE_RETURN && index + TERMINATOR_BYTES <= |block| && block[index..index + TERMINATOR_BYTES] == TERMINATOR {
        return r.(terminatorOffset := Some(index));
      }
      r := r.(hasIllegalControl := r.hasIllegalControl || IsIllegalControl(character));
    }
  }

  /** `std::string_view::find` of the terminator. */
  function FindTerminator(block: seq<Byte>, from: nat := 0): (r: Option<nat>)
    requires from <= |block|
    ensures r.Some? ==> from <= r.value && TerminatorAt(block, r.value) && forall i :: from <= i < r.value ==> !TerminatorAt(block, i)
    ensures r.None? ==> forall i :: from <= i ==> !TerminatorAt(block, i)
    decreases |block| - from
  {
    if TerminatorAt(block, from) then Some(from)
    else if from == |block| then None
    else FindTerminator(block, from + 1)
  }

  method ScanLibrary(block: seq<Byte>) returns (r: ScanResult)
    ensures Scans(block, r)
  {
    r := ScanResult(FindTerminator(block), false);
    var validated := if r.terminatorOffset.None? then |block| else r.terminatorOffset.value;
    for index := 0 to validated
      invariant r.terminatorOffset == FindTerminator(block) && (r.hasIllegalControl <==> IllegalIn(block, 0, index))
    {
      r := r.(hasIllegalControl := r.hasIllegalControl || IsIllegalControl(block[index]));
    }
  }

  // -------------------------------------------------------------------- vectors

  const CONTROL_RANGE_MASK := 0xE0

  /** One lane of the vector test for illegal controls. */
  predicate IllegalLane(c: Byte) {
    (BitAnd(c, CONTROL_RANGE_MASK) == 0 && c != TAB && c != CARRIAGE_RETURN && c != LINE_FEED) || c == DELETE
  }

  lemma LaneIsScalar(c: Byte)
    ensures IllegalLane(c) <==> IsIllegalControl(c)
  {
    assert ShiftLeft(7, 5) == CONTROL_RANGE_MASK;
    AndShifted(c, 7, 5);
    assert Pow2(5) == 32 && Pow2(3) == 8;
    var high := Quotient(c, 32);
    AndAllOnes(high, 3);
  }

  predicate CandidateLane(chunk: Byte, shifted: Byte) { chunk == LINE_FEED && shifted == CARRIAGE_RETURN }

  /** `any_of` over the lanes. */
  predicate AnyCandidate(chunk: seq<Byte>, shifted: seq<Byte>)
    requires |chunk| == |shifted|
  {
    exists lane :: 0 <= lane < |chunk| && CandidateLane(chunk[lane], shifted[lane])
  }

  predicate AnyIllegal(chunk: seq<Byte>) { exists lane :: 0 <= lane < |chunk| && IllegalLane(chunk[lane]) }

  /** The first terminator whose middle lies in the positions from `index` on and before `end`. */
  method FindCandidate(block: seq<Byte>, index: nat, end: nat) returns (found: Option<nat>)
    requires index <= end < |block|
    ensures found.Some? ==> TerminatorAt(block, found.value) && index <= found.value + 1 < end
    ensures forall t :: index <= t + 1 < (if found.Some? then found.value + 1 else end) ==> !TerminatorAt(block, t)
  {
    for position := index to end
      invariant forall t :: index <= t + 1 < position ==> !TerminatorAt(block, t)
    {
      TerminatorBytes(block, position - 1);
      if block[position] != LINE_FEED || block[position + 1] != CARRIAGE_RETURN { continue; }
      if position < 1 || position + TERMINATOR_BYTES - 1 > |block| { continue; }
      if block[position - 1..position - 1 + TERMINATOR_BYTES] != TERMINATOR { continue; }
      return Some(position - 1);
    }
    return None;
  }

  /** No terminator has its middle before `index`: the invariant of the vector loop. */
  ghost predicate Cleared(block: seq<Byte>, index: nat) { forall t :: t + 1 < index ==> !TerminatorAt(block, t) }

  method ScanSimd(block: seq<Byte>, lanes: nat) returns (r: ScanResult)
    requires lanes > 0
    ensures Scans(block, r)
  {
    if |block| <= lanes {
      r := ScanBytewise(block);
      return;
    }
    r := ScanResult(None, false);
    var vectorLimit := |block| - lanes;
    var index := 0;
    while index < vectorLimit
      invariant 0 <= index < |block| && Cleared(block, index)
      invariant r.terminatorOffset.None? && (r.hasIllegalControl <==> IllegalIn(block, 0, index))
      decreases |block| - index
    {
      var chunk := block[index..index + lanes];
      var shifted := block[index + 1..index + 1 + lanes];
      if AnyCandidate(chunk, shifted) {
        var end := if index + lanes < |block| - 1 then index + lanes else |block| - 1;
        var found := FindCandidate(block, index, end);
        if found.Some? {
          r := FinishChunk(block, index, found.value, r.hasIllegalControl);
          return;
        }
      } else {
        NoCandidate(block, index, lanes);
      }
      ChunkFlag(block, index, lanes);
      r := r.(hasIllegalControl := r.hasIllegalControl || AnyIllegal(chunk));
      index := index + lanes;
    }
    r := FinishTail(block, index, r.hasIllegalControl);
  }

  lemma NoCandidate(block: seq<Byte>, index: nat, lanes: nat)
    requires index + lanes < |block|
    requires !AnyCandidate(block[index..index + lanes], block[index + 1..index + 1 + lanes])
    ensures forall t :: index <= t + 1 < index + lanes ==> !TerminatorAt(block, t)
  {
    forall t | index <= t + 1 < index + lanes ensures !TerminatorAt(block, t) {
      TerminatorBytes(block, t);
      var lane := t + 1 - index;
      assert !CandidateLane(block[index..index + lanes][lane], block[index + 1..index + 1 + lanes][lane]);
    }
  }

  lemma ChunkFlag(block: seq<Byte>, index: nat, lanes: nat)
    requires index + lanes <= |block|
    ensures AnyIllegal(block[index..index + lanes]) <==> IllegalIn(block, index, index + lanes)
    ensures IllegalIn(block, 0, index + lanes) <==> IllegalIn(block, 0, index) || IllegalIn(block, index, index + lanes)
  {
    var chunk := block[index..index + lanes];
    forall lane | 0 <= lane < lanes ensures IllegalLane(chunk[lane]) <==> IsIllegalControl(block[index + lane]) {
      LaneIsScalar(chunk[lane]);
    }
    if i :| index <= i < index + lanes && IsIllegalControl(block[i]) {
      assert IllegalLane(chunk[i - index]);
    }
  }

  /** A terminator was found in this chunk: only the bytes before it still count. */
  method FinishChunk(block: seq<Byte>, index: nat, terminator: nat, illegalBefore: bool) returns (r: ScanResult)
    requires index <= |block| && TerminatorAt(block, terminator) && index <= terminator + 1
    requires illegalBefore <==> IllegalIn(block, 0, index)
    requires Cleared(block, terminator + 1)
    ensures Scans(block, r)
  {
    TerminatorBytes(block, terminator);
    var illegal := illegalBefore;
    var byte := index;
    while byte < terminator
      invariant index <= byte && (byte <= terminator || byte == index)
      invariant illegal <==> IllegalIn(block, 0, byte)
    {
      illegal := illegal || IsIllegalControl(block[byte]);
      byte := byte + 1;
    }
    return ScanResult(Some(terminator), illegal);
  }

  /** The last bytes, and the three before them in which a terminator may have begun. */
  method FinishTail(block: seq<Byte>, index: nat, illegalBefore: bool) returns (r: ScanResult)
    requires index <= |block| && Cleared(block, index)
    requires illegalBefore <==> IllegalIn(block, 0, index)
    ensures Scans(block, r)
  {
    var tailBegin := if index >= TERMINATOR_BYTES - 1 then index - (TERMINATOR_BYTES - 1) else 0;
    var tail := ScanBytewise(block[tailBegin..]);
    TailScan(block, tailBegin, tail);
    r := ScanResult(if tail.terminatorOffset.Some? then Some(tailBegin + tail.terminatorOffset.value) else None,
                    illegalBefore || tail.hasIllegalControl);
    if tail.terminatorOffset.Some? {
      TerminatorBytes(block, tailBegin + tail.terminatorOffset.value);
    }
  }

  /** A scan of a tail, in the positions of the block. */
  lemma TailScan(block: seq<Byte>, begin: nat, tail: ScanResult)
    requires begin <= |block| && Scans(block[begin..], tail)
    ensures match tail.terminatorOffset
            case None => (forall t :: begin <= t ==> !TerminatorAt(block, t)) && (tail.hasIllegalControl <==> IllegalIn(block, begin, |block|))
            case Some(t) =>
              && TerminatorAt(block, begin + t) && (forall u :: begin <= u < begin + t ==> !TerminatorAt(block, u))
              && (tail.hasIllegalControl <==> IllegalIn(block, begin, begin + t))
  {
    var s := block[begin..];
    forall u | begin <= u ensures TerminatorAt(block, u) <==> TerminatorAt(s, u - begin) {
      TerminatorBytes(block, u);
      TerminatorBytes(s, u - begin);
    }
    forall hi | 0 <= hi <= |s| ensures IllegalIn(s, 0, hi) <==> IllegalIn(block, begin, begin + hi) {
      if i :| begin <= i < begin + hi && IsIllegalControl(block[i]) {
        assert s[i - begin] == block[i];
      }
    }
  }
}
