/**
 The byte transports under a connection: the gathering write over a socket
 (src/socket.cpp `write_vectors`) and the write path over OpenSSL with its
 stalled-write record (src/tls_transport.cpp). The kernel and OpenSSL are
 adversaries: they may take any prefix, block or fail. `sent` records every byte
 they accepted.
 */
module Transports {
  import opened Text

  datatype TransportResult = Ok(bytes: nat) | WantRead | WantWrite | Closed | Error {
    predicate IsBlocked() { WantRead? || WantWrite? }
    predicate IsTerminal() { Closed? || Error? }
  }

  const WRITE_BATCH_CAPACITY := 8

  // ------------------------------------------------------------ gathering pieces

  /** The non-empty pieces of the vectors that lie behind the first `offset` bytes. */
  function Unsent(vectors: seq<string>, offset: nat): seq<string> {
    if vectors == [] then []
    else if offset >= |vectors[0]| then Unsent(vectors[1..], offset - |vectors[0]|)
    else [vectors[0][offset..]] + Unsent(vectors[1..], 0)
  }

  /** Together they are exactly the unsent bytes. */
  lemma {:induction false} UnsentIsTheRest(vectors: seq<string>, offset: nat)
    requires offset <= |Concat(vectors)|
    ensures Concat(Unsent(vectors, offset)) == Concat(vectors)[offset..]
    ensures forall i :: 0 <= i < |Unsent(vectors, offset)| ==> Unsent(vectors, offset)[i] != ""
    decreases |vectors|
  {
    if vectors != [] {
      var v, tail := vectors[0], vectors[1..];
      if offset >= |v| {
        UnsentIsTheRest(tail, offset - |v|);
      } else {
        UnsentIsTheRest(tail, 0);
        assert Unsent(vectors, offset)[1..] == Unsent(tail, 0);
      }
    }
  }

  function Least(a: nat, b: nat): nat { if a < b then a else b }

  lemma UnsentSkip(vectors: seq<string>, i: nat, skipped: nat)
    requires i < |vectors|
    ensures Unsent(vectors[i..], skipped) ==
            if skipped >= |vectors[i]| then Unsent(vectors[i + 1..], skipped - |vectors[i]|)
            else [vectors[i][skipped..]] + Unsent(vectors[i + 1..], 0)
  {
    assert vectors[i..][1..] == vectors[i + 1..];
  }

  lemma {:induction false} UnsentCount(vectors: seq<string>, offset: nat)
    ensures |Unsent(vectors, offset)| <= |vectors|
    decreases |vectors|
  {
    if vectors != [] {
      UnsentCount(vectors[1..], if offset >= |vectors[0]| then offset - |vectors[0]| else 0);
    }
  }

  /** The batch of at most `limit` pieces, built by skipping over what was already written. */
  method BuildBatch(vectors: seq<string>, offset: nat, limit: nat) returns (batch: seq<string>)
    ensures batch == Unsent(vectors, offset)[..Least(limit, |Unsent(vectors, offset)|)]
  {
    batch := [];
    var skipped: nat := offset;
    assert vectors[0..] == vectors;
    for i := 0 to |vectors|
      invariant |batch| <= limit
      invariant Unsent(vectors, offset) == batch + Unsent(vectors[i..], skipped)
    {
      UnsentSkip(vectors, i, skipped);
      var entry := vectors[i];
      if skipped >= |entry| {
        skipped := skipped - |entry|;
        continue;
      }
      if |batch| == limit { return; }
      batch := batch + [entry[skipped..]];
      skipped := 0;
    }
  }

  lemma {:induction false} ConcatPrefix(parts: seq<string>, n: nat)
    requires n <= |parts|
    ensures Prefix(Concat(parts[..n]), Concat(parts))
  {
    assert parts == parts[..n] + parts[n..];
    ConcatAppend(parts[..n], parts[n..]);
  }

  // ------------------------------------------------------------------ transports

  datatype SystemResult = Written(n: nat) | Interrupted | WouldBlock | Failed

  /** A call of the kernel: how many bytes it was offered, and what it answered. */
  datatype SystemCall = SystemCall(asked: nat, result: SystemResult) {
    /** Nothing more can be written for now: less than everything was taken, or nothing. */
    predicate Stops() { result.WouldBlock? || result.Failed? || (result.Written? && result.n < asked) }
  }

  datatype StalledKind = NoStall | StalledWrite | StalledWritev

  /** What OpenSSL insists on seeing again after a write that wanted to be retried. */
  datatype SslRecord = SslRecord(address: int, text: string)

  /** Bytes the peer sends that were not read yet, and how many of them lie decrypted inside OpenSSL, where no readiness
      event shows them. */
  datatype Inbound = Inbound(incoming: nat, held: nat)

  /** What a read with this much room may do: decrypted bytes come before anything else is waited for; when there are none,
      a new record is decrypted and the part of it that is not asked for is held. */
  predicate MayRead(secure: bool, room: nat, before: Inbound, r: TransportResult, after: Inbound) {
    if !r.Ok? then after == before && (r.WantRead? ==> before.held == 0)
    else
      && r.bytes <= room && after.incoming + r.bytes == before.incoming
      && if before.held > 0 then after.held + r.bytes == before.held
         else if secure && r.bytes > 0 then after.held <= after.incoming
         else after.held == 0
  }

  class Transport {
    const secure: bool
    ghost var sent: string             // every byte accepted, in order
    var interrupts: nat                // signals still to arrive; finitely many
    var incoming: nat                  // as in `Inbound`
    var held: nat
    var kind: StalledKind
    var stalledAddress: int
    var stalledLength: nat
    var scratch: string
    var scratchAddress: int
    ghost var record: Option<SslRecord>  // OpenSSL's own memory of a blocked write
    ghost var badRetries: nat            // how often a retry presented something else
    ghost var last: TransportResult      // what the latest call answered
    ghost var calls: seq<SystemCall>     // every gathering write asked of the kernel
    ghost var readCalls: nat             // how often was read
    ghost var shaken: bool               // whether the handshake succeeded

    ghost predicate Stalled()
      reads `kind
    {
      kind == StalledWritev
    }

    ghost predicate Valid()
      reads `kind, `record, `scratch, `scratchAddress, `stalledAddress, `stalledLength
    {
      && kind != StalledWrite
      && (!secure ==> !Stalled())
      && (Stalled() <==> record.Some?)
      && (Stalled() ==> record == Some(SslRecord(scratchAddress, scratch)) && stalledAddress == scratchAddress && stalledLength == |scratch|)
    }

    /** A blocked write may only be retried with the bytes it was first given. */
    ghost predicate MayWrite(batch: seq<string>)
      reads `kind, `scratch
    {
      Stalled() ==> scratch == Concat(batch)
    }

    constructor (secure: bool, interrupts: nat, incoming: nat)
      ensures Valid() && !Stalled() && sent == "" && badRetries == 0 && !shaken && this.secure == secure
    {
      this.secure := secure;
      this.interrupts, this.incoming, held := interrupts, incoming, 0;
      sent, kind, record, badRetries, scratch, last := "", NoStall, None, 0, "", Ok(0);
      calls, readCalls, shaken := [], 0, false;
    }

    /** `::writev`: takes any prefix, or is interrupted, or would block, or fails. */
    method SystemWritev(batch: seq<string>) returns (r: SystemResult)
      modifies `sent, `interrupts, `calls
      ensures calls == old(calls) + [SystemCall(|Concat(batch)|, r)]
      ensures r.Written? ==> r.n <= |Concat(batch)| && sent == old(sent) + Concat(batch)[..r.n]
      ensures !r.Written? ==> sent == old(sent)
      ensures interrupts <= old(interrupts) && (r.Interrupted? ==> interrupts < old(interrupts))
    {
      if {
        case true =>
          var n: nat :| n <= |Concat(batch)|;
          sent := sent + Concat(batch)[..n];
          r := Written(n);
        case interrupts > 0 =>
          interrupts := interrupts - 1;
          r := Interrupted;
        case true => r := WouldBlock;
        case true => r := Failed;
      }
      calls := calls + [SystemCall(|Concat(batch)|, r)];
    }

    /** Writes until everything is taken, a short count, or an error after which only progress is reported: it gives up
        only when the kernel's latest answer leaves no other choice. */
    method WriteVectors(vectors: seq<string>) returns (written: Option<nat>, wouldBlock: bool)
      modifies `sent, `interrupts, `calls
      ensures written.Some? ==> written.value <= |Concat(vectors)| && sent == old(sent) + Concat(vectors)[..written.value]
      ensures written.None? ==> sent == old(sent)
      ensures written.None? || written.value < |Concat(vectors)| ==> |old(calls)| < |calls| && calls[|calls| - 1].Stops()
      ensures written.None? ==>
                |old(calls)| < |calls| && calls[|calls| - 1].result == if wouldBlock then WouldBlock else Failed
    {
      var total: nat := 0;
      ghost var all := Concat(vectors);
      while true
        invariant total <= |all| && sent == old(sent) + all[..total] && |old(calls)| <= |calls|
        decreases |all| - total, interrupts
      {
        UnsentIsTheRest(vectors, total);
        ghost var rest := Unsent(vectors, total);
        ConcatPrefix(rest, Least(WRITE_BATCH_CAPACITY, |rest|));
        var batch := BuildBatch(vectors, total, WRITE_BATCH_CAPACITY);
        if batch == [] {
          return Some(total), false;
        }
        assert batch[0] != "";
        var r := SystemWritev(batch);
        match r {
          case Interrupted =>
          case WouldBlock => return if total > 0 then Some(total) else None, true;
          case Failed => return if total > 0 then Some(total) else None, false;
          case Written(n) =>
            assert Concat(batch)[..n] == all[total..][..n] == all[total..total + n];
            assert all[..total + n] == all[..total] + all[total..total + n];
            total := total + n;
            if n < |Concat(batch)| {
              return Some(total), false;
            }
        }
      }
    }

    method PlainWritev(batch: seq<string>) returns (r: TransportResult)
      modifies `sent, `interrupts, `calls
      ensures r.Ok? ==> r.bytes <= |Concat(batch)| && sent == old(sent) + Concat(batch)[..r.bytes]
      ensures !r.Ok? ==> sent == old(sent)
      ensures !r.Ok? || r.bytes < |Concat(batch)| ==> |old(calls)| < |calls| && calls[|calls| - 1].Stops()
      ensures !r.Ok? ==> calls[|calls| - 1].result == if r == WantWrite then WouldBlock else Failed
      ensures !r.Ok? ==> r == WantWrite || r == Error
    {
      if batch == [] { return Ok(0); }
      var written, wouldBlock := WriteVectors(batch);
      if written.Some? { return Ok(written.value); }
      return if wouldBlock then WantWrite else Error;
    }

    /** `SSL_write_ex`. After a block OpenSSL goes on with the bytes of the first attempt. */
    method SslWrite(address: int, text: string) returns (r: TransportResult)
      requires text != ""
      requires record.Some? ==> record.value.address == address && |record.value.text| == |text|
      modifies `sent, `record
      ensures var first := if old(record).Some? then old(record).value.text else text;
              && (r.Ok? ==> 0 < r.bytes <= |text| && sent == old(sent) + first[..r.bytes])
              && (!r.Ok? ==> sent == old(sent))
              && record == if r.IsBlocked() then Some(SslRecord(address, first)) else None
    {
      ghost var first := if record.Some? then record.value.text else text;
      if {
        case true =>
          var n: nat :| 0 < n <= |text|;
          sent := sent + first[..n];
          record := None;
          r := Ok(n);
        case true => record := Some(SslRecord(address, first)); r := WantRead;
        case true => record := Some(SslRecord(address, first)); r := WantWrite;
        case true => record := None; r := Closed;
        case true => record := None; r := Error;
      }
    }

    /** One TLS record of all pieces; its storage may move. */
    method CoalesceIntoScratch(batch: seq<string>)
      modifies `scratch, `scratchAddress
      ensures scratch == Concat(batch)
    {
      scratch := "";
      scratchAddress := *;
      for i := 0 to |batch|
        invariant scratch == Concat(batch[..i])
      {
        assert batch[..i + 1] == batch[..i] + [batch[i]];
        ConcatAppend(batch[..i], [batch[i]]);
        scratch := scratch + batch[i];
      }
      assert batch[..|batch|] == batch;
    }

    method TlsWritev(batch: seq<string>) returns (r: TransportResult)
      requires Valid() && secure
      modifies this
      ensures incoming == old(incoming) && shaken == old(shaken)
      ensures old(MayWrite(batch)) ==>
                && Valid() && badRetries == old(badRetries)
                && (r.Ok? ==> r.bytes <= |Concat(batch)| && sent == old(sent) + Concat(batch)[..r.bytes])
                && (!r.Ok? ==> sent == old(sent))
                && (r.IsBlocked() ==> Stalled() && scratch == Concat(batch))
                && (r.IsTerminal() ==> !Stalled())
                && (r.Ok? && Concat(batch) != "" ==> !Stalled())
    {
      var total := |Concat(batch)|;
      if total == 0 { return Ok(0); }
      var isRetry := kind == StalledWritev && stalledLength == total;
      if !isRetry {
        CoalesceIntoScratch(batch);
      }
      if kind != NoStall && !(kind == StalledWritev && stalledAddress == scratchAddress && stalledLength == total) {
        badRetries := badRetries + 1;
        return Error;
      }
      r := SslWrite(scratchAddress, scratch);
      if r.IsBlocked() {
        kind, stalledAddress, stalledLength := StalledWritev, scratchAddress, total;
      } else {
        kind, stalledAddress, stalledLength := NoStall, 0, 0;
      }
    }

    /** One contract for both transports. */
    method Writev(batch: seq<string>) returns (r: TransportResult)
      requires Valid() && MayWrite(batch) && Concat(batch) != ""
      modifies this
      ensures Valid() && badRetries == old(badRetries) && incoming == old(incoming) && shaken == old(shaken)
      ensures r.Ok? ==> r.bytes <= |Concat(batch)| && sent == old(sent) + Concat(batch)[..r.bytes] && !Stalled()
      ensures !r.Ok? ==> sent == old(sent)
      ensures Stalled() ==> r.IsBlocked() && scratch == Concat(batch)
      ensures last == r
    {
      if secure {
        r := TlsWritev(batch);
      } else {
        r := PlainWritev(batch);
      }
      last := r;
    }

    /** Reading: at most `room` bytes, or a block, or the end. */
    method Read(room: nat) returns (r: TransportResult, data: string)
      modifies `incoming, `held, `readCalls, `last
      ensures last == r && readCalls == old(readCalls) + 1
      ensures r.Ok? ==> |data| == r.bytes
      ensures MayRead(secure, room, Inbound(old(incoming), old(held)), r, Inbound(incoming, held))
    {
      data := "";
      readCalls := readCalls + 1;
      if {
        case true =>
          data :| |data| <= room && |data| <= incoming && (held > 0 ==> |data| <= held);
          incoming := incoming - |data|;
          if held > 0 {
            held := held - |data|;
          } else if secure && data != "" {
            var rest: nat :| rest <= incoming;
            held := rest;
          }
          r := Ok(|data|);
        case held == 0 => r := WantRead;
        case true => r := WantWrite;
        case true => r := Closed;
        case true => r := Error;
      }
      last := r;
    }

    method Handshake() returns (r: TransportResult)
      modifies `last, `shaken
      ensures last == r && shaken == r.Ok? && (!secure ==> r == Ok(0))
    {
      r := Ok(0);
      if secure {
        if {
          case true =>
          case true => r := WantRead;
          case true => r := WantWrite;
          case true => r := Closed;
          case true => r := Error;
        }
      }
      last, shaken := r, r.Ok?;
    }
  }
}
