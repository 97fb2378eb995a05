/**
 Connection admission (src/server_state.cpp): one move-only token per live
 connection, a global count and a count per source address.
 */
module Admission {
  import opened Text

  datatype Peer = Peer(bytes: string, isUnix: bool)

  datatype Rejection = GlobalLimit | SourceLimit

  /** What a live token was counted under; nothing for a local socket. */
  type Holders = map<ConnectionAdmission, Option<string>>

  /** The tokens counted for a source. */
  ghost function HeldBy(live: Holders, source: string): set<ConnectionAdmission> {
    set t | t in live && live[t] == Some(source)
  }

  /** A table of counts says exactly how many tokens each source holds, and has no zero entries. */
  ghost predicate Tallies(counts: map<string, nat>, live: Holders) {
    && (forall s :: s in counts ==> counts[s] > 0)
    && (forall s :: (if s in counts then counts[s] else 0) == |HeldBy(live, s)|)
  }

  function CountOf(counts: map<string, nat>, source: string): nat {
    if source in counts then counts[source] else 0
  }

  lemma HeldAdded(live: Holders, t: ConnectionAdmission, held: Option<string>, s: string)
    requires t !in live
    ensures |HeldBy(live[t := held], s)| == |HeldBy(live, s)| + if held == Some(s) then 1 else 0
  {
    assert HeldBy(live[t := held], s) == HeldBy(live, s) + if held == Some(s) then {t} else {};
  }

  lemma HeldRemoved(live: Holders, t: ConnectionAdmission, s: string)
    requires t in live
    ensures |HeldBy(live - {t}, s)| == |HeldBy(live, s)| - if live[t] == Some(s) then 1 else 0
  {
    assert HeldBy(live - {t}, s) == HeldBy(live, s) - if live[t] == Some(s) then {t} else {};
  }

  lemma LiveRemoved(live: Holders, t: ConnectionAdmission)
    requires t in live
    ensures |live - {t}| == |live| - 1
  {
    assert live == (live - {t})[t := live[t]];
  }

  lemma MinusTwice(live: Holders, a: ConnectionAdmission, b: ConnectionAdmission)
    ensures live - {a} - {b} == live - {a, b}
  {}

  /** A slot goes from one token to another: no count changes. */
  lemma Handover(counts: map<string, nat>, live: Holders, from: ConnectionAdmission, to: ConnectionAdmission)
    requires Tallies(counts, live) && from in live && to !in live
    ensures Tallies(counts, (live - {from})[to := live[from]])
    ensures |(live - {from})[to := live[from]]| == |live|
  {
    LiveRemoved(live, from);
    forall s ensures |HeldBy((live - {from})[to := live[from]], s)| == |HeldBy(live, s)| {
      HeldRemoved(live, from, s);
      HeldAdded(live - {from}, to, live[from], s);
    }
  }

  /** The table without one connection of a source. */
  function OneLess(counts: map<string, nat>, source: string): map<string, nat>
    requires source in counts
  {
    if counts[source] <= 1 then counts - {source} else counts[source := counts[source] - 1]
  }

  /** Taking a token's connection out of the table leaves the other tokens' counts. */
  lemma SlotReturned(counts: map<string, nat>, live: Holders, token: ConnectionAdmission, source: string, counted: bool)
    requires Tallies(counts, live) && token in live && live[token] == if counted then Some(source) else None
    ensures counted ==> source in counts && Tallies(OneLess(counts, source), live - {token})
    ensures !counted ==> Tallies(counts, live - {token})
  {
    forall s ensures |HeldBy(live - {token}, s)| == |HeldBy(live, s)| - if live[token] == Some(s) then 1 else 0 {
      HeldRemoved(live, token, s);
    }
    if counted { assert token in HeldBy(live, source); }
  }

  class ServerState {
    const maxConnections: nat
    const maxConnectionsPerSource: nat
    var activeConnections: nat
    var sourceConnections: map<string, nat>
    ghost var live: Holders

    /** Both counts are those of the live tokens, and within the limits. */
    ghost predicate Valid()
      reads this, live.Keys
    {
      && (forall t :: t in live ==> t.state == this && t.Counted() == live[t])
      && activeConnections == |live| <= maxConnections
      && Tallies(sourceConnections, live)
      && (forall s :: s in sourceConnections ==> sourceConnections[s] <= maxConnectionsPerSource)
    }

    constructor (maxConnections: nat, maxConnectionsPerSource: nat)
      ensures Valid() && live == map[]
      ensures this.maxConnections == maxConnections && this.maxConnectionsPerSource == maxConnectionsPerSource
    {
      this.maxConnections, this.maxConnectionsPerSource := maxConnections, maxConnectionsPerSource;
      activeConnections, sourceConnections, live := 0, map[], map[];
    }

    method Admit(peer: Peer) returns (token: ConnectionAdmission?, rejection: Option<Rejection>)
      requires Valid()
      modifies this
      ensures Valid()
      ensures rejection == if |old(live)| >= maxConnections then Some(GlobalLimit)
                           else if !peer.isUnix && |HeldBy(old(live), peer.bytes)| >= maxConnectionsPerSource then Some(SourceLimit)
                           else None
      ensures rejection.Some? ==> token == null && unchanged(this)
      ensures rejection.None? ==>
                && token != null && fresh(token) && token.state == this
                && live == old(live)[token := if peer.isUnix then None else Some(peer.bytes)]
    {
      if activeConnections >= maxConnections { return null, Some(GlobalLimit); }
      if !peer.isUnix {
        var count := CountOf(sourceConnections, peer.bytes);
        if count >= maxConnectionsPerSource { return null, Some(SourceLimit); }
        sourceConnections := sourceConnections[peer.bytes := count + 1];
      }
      activeConnections := activeConnections + 1;
      var t := new ConnectionAdmission(this, peer.bytes, !peer.isUnix);
      forall s ensures |HeldBy(live[t := t.Counted()], s)| == |HeldBy(live, s)| + if t.Counted() == Some(s) then 1 else 0 {
        HeldAdded(live, t, t.Counted(), s);
      }
      live := live[t := t.Counted()];
      return t, None;
    }

    /** Gives a slot back; what the code guards against does not happen. */
    method Release(source: string, sourceCounted: bool, ghost token: ConnectionAdmission)
      requires Valid() && token in live && live[token] == if sourceCounted then Some(source) else None
      modifies this
      ensures Valid() && live == old(live) - {token}
    {
      LiveRemoved(live, token);
      SlotReturned(sourceConnections, live, token, source, sourceCounted);
      assert activeConnections > 0;
      if activeConnections > 0 { activeConnections := activeConnections - 1; }
      live := live - {token};
      if sourceCounted {
        assert source in sourceConnections;
        if source in sourceConnections {
          if sourceConnections[source] <= 1 {
            sourceConnections := sourceConnections - {source};
          } else {
            sourceConnections := sourceConnections[source := sourceConnections[source] - 1];
          }
        }
      }
    }
  }

  class ConnectionAdmission {
    var state: ServerState?
    var source: string
    var sourceCounted: bool

    function Counted(): Option<string>
      reads this
    {
      if sourceCounted then Some(source) else None
    }

    /** Holds a slot of a valid server, or nothing. */
    ghost predicate Valid()
      reads this, if state == null then {} else {state}, if state == null then {} else state.live.Keys
    {
      state != null ==> state.Valid() && this in state.live
    }

    constructor (state: ServerState, source: string, sourceCounted: bool)
      ensures this.state == state && this.source == source && this.sourceCounted == sourceCounted
    {
      this.state, this.source, this.sourceCounted := state, source, sourceCounted;
    }

    /** Move construction. */
    constructor Move(other: ConnectionAdmission)
      requires other.Valid()
      modifies other, if other.state == null then {} else {other.state}
      ensures Valid() && other.Valid() && state == old(other.state) && other.state == null
      ensures Counted() == old(other.Counted())
      ensures state != null ==> state.Valid() && state.live == (old(other.state.live) - {other})[this := Counted()]
    {
      state, source, sourceCounted := other.state, other.source, other.sourceCounted;
      new;
      other.state := null;
      if state != null {
        Handover(state.sourceConnections, state.live, other, this);
        state.live := (state.live - {other})[this := state.live[other]];
      }
    }

    /** Destruction; also the first half of a move assignment. */
    method Release()
      requires Valid()
      modifies this, if state == null then {} else {state}
      ensures state == null
      ensures old(state) != null ==> old(state).Valid() && old(state).live == old(state.live) - {this}
    {
      if state == null { return; }
      state.Release(source, sourceCounted, this);
      state := null;
    }

    /** Move assignment: the old slot is given back, the other's is taken over; a token assigned to itself keeps its slot. */
    method Assign(other: ConnectionAdmission)
      requires Valid() && other.Valid()
      modifies this, other, (if state == null then {} else {state}) + (if other.state == null then {} else {other.state})
      ensures this == other ==> unchanged(this) && (state != null ==> unchanged(state))
      ensures this != other ==> state == old(other.state) && other.state == null
      ensures Valid() && other.Valid()
      ensures this != other && old(state) != null ==>
                old(state).Valid() && (old(state) != state ==> old(state).live == old(state.live) - {this})
      ensures this != other && state != null ==>
                && Counted() == old(other.Counted())
                && state.live == (old(other.state.live) - (if old(state) == state then {this, other} else {other}))[this := Counted()]
    {
      if this != other {
        Replace(other);
      }
    }

    method Replace(other: ConnectionAdmission)
      requires this != other && Valid() && other.Valid()
      modifies this, other, (if state == null then {} else {state}) + (if other.state == null then {} else {other.state})
      ensures state == old(other.state) && other.state == null && Valid()
      ensures old(state) != null ==>
                old(state).Valid() && (old(state) != state ==> old(state).live == old(state.live) - {this})
      ensures state != null ==>
                && Counted() == old(other.Counted())
                && state.live == (old(other.state.live) - (if old(state) == state then {this, other} else {other}))[this := Counted()]
    {
      ghost var mine := state;
      Release();
      assert mine != null ==> mine.Valid() && this !in mine.live;
      assert other.Valid();
      assert mine != null && mine != other.state ==> other !in mine.live;
      TakeOver(other, if mine == other.state then null else mine);
      if mine != null { MinusTwice(old(state.live), this, other); }
    }

    /** The other token's slot, if it has one, becomes this one's; another server's counts are not touched. */
    method TakeOver(other: ConnectionAdmission, ghost bystander: ServerState?)
      requires this != other && state == null && other.Valid()
      requires other.state != null ==> this !in other.state.live
      requires bystander != null ==> bystander != other.state && bystander.Valid() && this !in bystander.live && other !in bystander.live
      modifies this, other, if other.state == null then {} else {other.state}
      ensures Valid() && state == old(other.state) && other.state == null && Counted() == old(other.Counted())
      ensures state != null ==> state.live == (old(other.state.live) - {other})[this := Counted()]
      ensures bystander != null ==> unchanged(bystander) && bystander.Valid()
    {
      Adopt(other);
    }

    method Adopt(other: ConnectionAdmission)
      requires this != other && state == null && other.Valid()
      requires other.state != null ==> this !in other.state.live
      modifies this, other, if other.state == null then {} else {other.state}
      ensures Valid() && state == old(other.state) && other.state == null && Counted() == old(other.Counted())
      ensures state != null ==> state.live == (old(other.state.live) - {other})[this := Counted()]
    {
      state, source, sourceCounted := other.state, other.source, other.sourceCounted;
      other.state := null;
      if state != null {
        Handover(state.sourceConnections, state.live, other, this);
        state.live := (state.live - {other})[this := state.live[other]];
      }
    }
  }

  // -------------------------------------------------------------------- any run

  datatype Operation = Admit(peer: Peer) | MoveOut(token: nat) | MoveInto(to: nat, from: nat) | Drop(token: nat)

  /** The slots in use are exactly those of the tokens that hold one. */
  ghost predicate Accounted(server: ServerState, tokens: seq<ConnectionAdmission>)
    reads server, tokens, server.live.Keys
  {
    && server.Valid()
    && (forall i :: 0 <= i < |tokens| ==> tokens[i].state == null || (tokens[i].state == server && tokens[i] in server.live))
    && (forall t :: t in server.live ==> t in tokens)
  }

  method MoveToNew(server: ServerState, tokens: seq<ConnectionAdmission>, i: nat) returns (after: seq<ConnectionAdmission>)
    requires Accounted(server, tokens) && i < |tokens|
    modifies server, tokens
    ensures Accounted(server, after) && tokens <= after && forall i :: |tokens| <= i < |after| ==> fresh(after[i])
  {
    var token := new ConnectionAdmission.Move(tokens[i]);
    after := tokens + [token];
  }

  method MoveOver(server: ServerState, tokens: seq<ConnectionAdmission>, i: nat, j: nat)
    requires Accounted(server, tokens) && i < |tokens| && j < |tokens|
    modifies server, tokens
    ensures Accounted(server, tokens)
  {
    tokens[i].Assign(tokens[j]);
    assert server.Valid();
    forall t | t in server.live ensures t in tokens {
      assert t in old(server.live) || t == tokens[i];
    }
  }

  method DropOne(server: ServerState, tokens: seq<ConnectionAdmission>, i: nat)
    requires Accounted(server, tokens) && i < |tokens|
    modifies server, tokens[i]
    ensures Accounted(server, tokens) && tokens[i].state == null
  {
    tokens[i].Release();
  }

  method Perform(server: ServerState, tokens: seq<ConnectionAdmission>, op: Operation) returns (after: seq<ConnectionAdmission>)
    requires Accounted(server, tokens)
    modifies server, tokens
    ensures Accounted(server, after) && tokens <= after && forall i :: |tokens| <= i < |after| ==> fresh(after[i])
  {
    after := tokens;
    match op {
      case Admit(peer) =>
        var token, rejection := server.Admit(peer);
        if token != null { after := tokens + [token]; }
      case MoveOut(i) =>
        if i < |tokens| { after := MoveToNew(server, tokens, i); }
      case MoveInto(i, j) =>
        if i < |tokens| && j < |tokens| { MoveOver(server, tokens, i, j); }
      case Drop(i) =>
        if i < |tokens| { DropOne(server, tokens, i); }
    }
  }

  lemma NothingHeld(server: ServerState, tokens: seq<ConnectionAdmission>)
    requires Accounted(server, tokens) && forall i :: 0 <= i < |tokens| ==> tokens[i].state == null
    ensures server.live == map[] && server.sourceConnections == map[]
  {
    assert server.live == map[];
    assert forall s :: HeldBy(server.live, s) == {};
  }

  method DropAll(server: ServerState, tokens: seq<ConnectionAdmission>)
    requires Accounted(server, tokens)
    modifies server, tokens
    ensures server.Valid() && server.live == map[] && server.sourceConnections == map[]
  {
    for k := 0 to |tokens|
      invariant Accounted(server, tokens)
      invariant forall i :: 0 <= i < k ==> tokens[i].state == null
    {
      DropOne(server, tokens, k);
    }
    NothingHeld(server, tokens);
  }

  /** After any operations, once every token is destroyed nothing is counted any more. */
  method AnyRun(server: ServerState, operations: seq<Operation>)
    requires server.Valid() && server.live == map[]
    modifies server
    ensures server.Valid() && server.live == map[] && server.activeConnections == 0 && server.sourceConnections == map[]
  {
    var tokens: seq<ConnectionAdmission> := [];
    for k := 0 to |operations|
      invariant Accounted(server, tokens) && forall i :: 0 <= i < |tokens| ==> fresh(tokens[i])
    {
      tokens := Perform(server, tokens, operations[k]);
    }
    DropAll(server, tokens);
  }
}
