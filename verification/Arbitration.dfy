/** Which of two connections between the same nodes is kept.  Two nodes that connect to each
    other at once get two connections; each end registers both, in any order. */
module Arbitration {

  type NodeId = nat

  /** Generation of a descriptor, and whether it is to be closed. */
  datatype Descriptor = Descriptor(generation: nat, closing: bool)

  /** One node's record of another: the descriptor to reach it by, or a negative number, and
      the generation the descriptor had. */
  datatype Record = Record(fd: int, generation: nat)

  /** The record still stands for the connection it was made for. */
  predicate Current(r: Record, fds: map<int, Descriptor>) {
    r.fd in fds && fds[r.fd].generation == r.generation
  }

  class Node {
    const id: NodeId
    var fds: map<int, Descriptor>

    constructor (id: NodeId)
      ensures this.id == id && fds == map[]
    {
      this.id := id;
      fds := map[];
    }

    /** Ask for a descriptor to be closed. */
    method Close(fd: int)
      requires fd in fds
      modifies this
      ensures fds == old(fds)[fd := old(fds)[fd].(closing := true)]
    {
      if !fds[fd].closing {
        fds := fds[fd := fds[fd].(closing := true)];
      }
    }

    /** Register a connection with node `peer`.  The record is the new connection unless it
        holds another one that is still current; then the one in the allowed direction is
        kept, which the node with the larger id opens, and the other is closed. */
    method UpdateNodeFd(peer: NodeId, record0: Record, fd: int, generation: nat, activeOpen: bool) returns (record: Record)
      requires fd >= 0 && fd in fds && fds[fd].generation == generation && peer != id
      requires record0.fd >= 0 ==> record0.fd in fds
      modifies this
      ensures record == Kept(id, peer, record0, old(fds), fd, generation, activeOpen)
      ensures fds == Closed(id, peer, record0, old(fds), fd, activeOpen)
      ensures record0.fd < 0 || record0.fd == fd || record0.generation != old(fds)[record0.fd].generation ==>
                record == Record(fd, generation) && fds == old(fds)
      ensures record0.fd >= 0 && record0.fd != fd && record0.generation == old(fds)[record0.fd].generation ==>
                if activeOpen == (id > peer)
                then record == Record(fd, generation) && fds == old(fds)[record0.fd := old(fds)[record0.fd].(closing := true)]
                else record == record0 && fds == old(fds)[fd := old(fds)[fd].(closing := true)]
    {
      record := record0;
      if record.fd >= 0 && record.fd != fd {
        var valid := record.generation == fds[record.fd].generation;
        if !valid {
          record := record.(fd := -1);
        }
      }
      if record.fd < 0 || record.fd == fd {
        record := Record(fd, generation);
      } else {
        if (activeOpen && peer < id) || (!activeOpen && peer > id) {
          if record.generation == fds[record.fd].generation {
            Close(record.fd);
          }
          record := Record(fd, generation);
        } else {
          Close(fd);
        }
      }
    }
  }

  /** A connection is in the allowed direction when the node with the larger id opened it. */
  predicate Allowed(id: NodeId, peer: NodeId, activeOpen: bool) {
    if activeOpen then peer < id else id < peer
  }

  /** Another connection stands in the way of the new one. */
  predicate Contested(record: Record, fds: map<int, Descriptor>, fd: int) {
    record.fd >= 0 && record.fd != fd && Current(record, fds)
  }

  function Kept(id: NodeId, peer: NodeId, record: Record, fds: map<int, Descriptor>, fd: int, generation: nat,
                activeOpen: bool): Record {
    if Contested(record, fds, fd) && !Allowed(id, peer, activeOpen) then record else Record(fd, generation)
  }

  function Closed(id: NodeId, peer: NodeId, record: Record, fds: map<int, Descriptor>, fd: int, activeOpen: bool)
    : map<int, Descriptor>
    requires fd in fds
  {
    if !Contested(record, fds, fd) then fds
    else
      var loser := if Allowed(id, peer, activeOpen) then record.fd else fd;
      fds[loser := fds[loser].(closing := true)]
  }

  // ----- two nodes, two connections -----

  datatype Side = A | B

  /** A connection, by the side that opened it.  Both sides give it the same descriptor. */
  function Fd(opener: Side): int {
    if opener == A then 0 else 1
  }

  /** One side: its record of the other, its descriptors, and what it has registered. */
  datatype End = End(record: Record, fds: map<int, Descriptor>, registered: set<Side>)

  datatype State = State(a: End, b: End)

  function At(s: State, side: Side): End {
    if side == A then s.a else s.b
  }

  function With(s: State, side: Side, e: End): State {
    if side == A then s.(a := e) else s.(b := e)
  }

  function Other(side: Side): Side {
    if side == A then B else A
  }

  function Id(ids: (NodeId, NodeId), side: Side): NodeId {
    if side == A then ids.0 else ids.1
  }

  /** The side that opens the connection to be kept. */
  function Winner(ids: (NodeId, NodeId)): Side {
    if ids.0 > ids.1 then A else B
  }

  /** A side registers a connection, or closes one that it was asked to close or that the
      other side has closed. */
  datatype Step = Register(side: Side, opener: Side) | Shut(side: Side, opener: Side)

  predicate Open(e: End, opener: Side) {
    Fd(opener) in e.fds && e.fds[Fd(opener)].generation == 0
  }

  predicate Enabled(s: State, step: Step) {
    match step
    case Register(side, opener) => opener !in At(s, side).registered && Open(At(s, side), opener)
    case Shut(side, opener) =>
      && Open(At(s, side), opener)
      && (At(s, side).fds[Fd(opener)].closing || !Open(At(s, Other(side)), opener))
  }

  function Apply(ids: (NodeId, NodeId), s: State, step: Step): State
    requires Enabled(s, step)
  {
    var e := At(s, step.side);
    var fd := Fd(step.opener);
    match step
    case Register(side, opener) =>
      var mine, theirs := Id(ids, side), Id(ids, Other(side));
      With(s, side, End(Kept(mine, theirs, e.record, e.fds, fd, 0, opener == side),
                        Closed(mine, theirs, e.record, e.fds, fd, opener == side),
                        e.registered + {opener}))
    case Shut(side, opener) =>
      With(s, side, e.(fds := e.fds[fd := Descriptor(e.fds[fd].generation + 1, false)]))
  }

  /** Both connections are open and nothing is registered. */
  function Initial(): State {
    var e := End(Record(-1, 0), map[Fd(A) := Descriptor(0, false), Fd(B) := Descriptor(0, false)], {});
    State(e, e)
  }

  /** The winner's connection stays open and is the record once it is registered; where the
      other one is registered too, it is closed or about to be. */
  ghost predicate Fair(e: End, winner: Side) {
    var loser := Other(winner);
    && Fd(A) in e.fds && Fd(B) in e.fds
    && e.fds[Fd(winner)] == Descriptor(0, false)
    && (e.record.fd < 0 || e.record == Record(Fd(winner), 0) || e.record == Record(Fd(loser), 0))
    && (winner in e.registered <==> e.record == Record(Fd(winner), 0))
    && (e.record == Record(Fd(loser), 0) ==> loser in e.registered)
    && (winner in e.registered && loser in e.registered && Open(e, loser) ==> e.fds[Fd(loser)].closing)
    && (loser in e.registered && winner !in e.registered ==> e.record == Record(Fd(loser), 0))
    && (e.fds[Fd(loser)].closing ==> loser in e.registered && winner in e.registered)
  }

  ghost predicate Inv(ids: (NodeId, NodeId), s: State) {
    Fair(s.a, Winner(ids)) && Fair(s.b, Winner(ids))
  }

  lemma StepKeepsInv(ids: (NodeId, NodeId), s: State, step: Step)
    requires ids.0 != ids.1 && Inv(ids, s) && Enabled(s, step)
    ensures Inv(ids, Apply(ids, s, step))
  {
  }

  ghost predicate Run(ids: (NodeId, NodeId), states: seq<State>) {
    && states != [] && states[0] == Initial()
    && forall i :: 0 <= i < |states| - 1 ==> Moves(ids, states[i], states[i + 1])
  }

  ghost predicate Moves(ids: (NodeId, NodeId), s: State, next: State) {
    exists step :: Enabled(s, step) && next == Apply(ids, s, step)
  }

  lemma {:induction false} RunKeepsInv(ids: (NodeId, NodeId), states: seq<State>, i: nat)
    requires ids.0 != ids.1 && Run(ids, states) && i < |states|
    ensures Inv(ids, states[i])
  {
    if i > 0 {
      RunKeepsInv(ids, states, i - 1);
      assert Moves(ids, states[i - 1], states[i]);
      var step :| Enabled(states[i - 1], step) && states[i] == Apply(ids, states[i - 1], step);
      StepKeepsInv(ids, states[i - 1], step);
    }
  }

  ghost predicate Settled(s: State) {
    forall step :: !Enabled(s, step)
  }

  /** However the registrations and closings are ordered, when nothing is left to do both sides
      use the connection opened by the node with the larger id, which is open at both ends,
      and the other one is closed at both ends. */
  lemma BothKeepTheSame(ids: (NodeId, NodeId), states: seq<State>, side: Side)
    requires ids.0 != ids.1 && Run(ids, states) && Settled(states[|states| - 1])
    ensures At(states[|states| - 1], side).record == Record(Fd(Winner(ids)), 0)
    ensures Open(At(states[|states| - 1], side), Winner(ids))
    ensures !Open(At(states[|states| - 1], side), Other(Winner(ids)))
  {
    var s, w := states[|states| - 1], Winner(ids);
    RunKeepsInv(ids, states, |states| - 1);
    assert !Enabled(s, Register(A, w)) && !Enabled(s, Register(B, w));
    assert !Enabled(s, Register(A, Other(w))) && !Enabled(s, Register(B, Other(w)));
    assert !Enabled(s, Shut(A, Other(w))) && !Enabled(s, Shut(B, Other(w)));
  }

  /** Every run comes to that: each side registers and closes each connection at most once. */
  function Left(e: End): nat {
    (if A in e.registered then 0 else 1) + (if B in e.registered then 0 else 1)
    + (if Open(e, A) then 1 else 0) + (if Open(e, B) then 1 else 0)
  }

  lemma StepUsesUp(ids: (NodeId, NodeId), s: State, step: Step)
    requires ids.0 != ids.1 && Inv(ids, s) && Enabled(s, step)
    ensures Left(Apply(ids, s, step).a) + Left(Apply(ids, s, step).b) < Left(s.a) + Left(s.b)
  {
  }

  lemma {:induction false} RunsAreShort(ids: (NodeId, NodeId), states: seq<State>, i: nat)
    requires ids.0 != ids.1 && Run(ids, states) && i < |states|
    ensures i + Left(states[i].a) + Left(states[i].b) <= 8
  {
    if i > 0 {
      RunsAreShort(ids, states, i - 1);
      RunKeepsInv(ids, states, i - 1);
      var s := states[i - 1];
      assert Moves(ids, s, states[i]);
      var step :| Enabled(s, step) && states[i] == Apply(ids, s, step);
      StepUsesUp(ids, s, step);
    }
  }
}
