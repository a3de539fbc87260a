/** Per-connection outgoing channels, modelled as outboxes: the messages sent
    to a connection, in order. Connections are numbered in the order they were
    opened, so the outboxes form one sequence indexed by connection. */
module Channels {

  /** A connection, identified by its position among all connections opened. */
  type PeerId = nat

  /** Sends m to peer p: appended to its outbox, nobody else's changes. */
  function Send<M>(boxes: seq<seq<M>>, p: PeerId, m: M): (r: seq<seq<M>>)
    requires p < |boxes|
    ensures |r| == |boxes| && r[p] == boxes[p] + [m]
    ensures forall q :: 0 <= q < |boxes| && q != p ==> r[q] == boxes[q]
  {
    boxes[p := boxes[p] + [m]]
  }

  /** Sending on a channel just opened leaves it holding that one message. */
  lemma SendToNew<M>(boxes: seq<seq<M>>, m: M)
    ensures Send(boxes + [[]], |boxes|, m) == boxes + [[m]]
  {
    assert [] + [m] == [m];
  }

  /** The registration keys in `reg` that point at peer p. */
  function KeysOf(reg: map<string, PeerId>, p: PeerId): set<string>
  {
    set k | k in reg && reg[k] == p
  }

  /** n copies of m. */
  function Copies<M>(m: M, n: nat): (r: seq<M>)
    ensures |r| == n && forall i :: 0 <= i < n ==> r[i] == m
  {
    if n == 0 then [] else Copies(m, n - 1) + [m]
  }

  /** Every peer registered in `reg` receives m once per key it is
      registered under; outboxes of unregistered peers stay as they were. */
  function FanOut<M>(boxes: seq<seq<M>>, reg: map<string, PeerId>, m: M): (r: seq<seq<M>>)
    ensures |r| == |boxes|
  {
    seq(|boxes|, p requires 0 <= p < |boxes| => boxes[p] + Copies(m, |KeysOf(reg, p)|))
  }

  /** Every peer is registered under at most one key. */
  predicate Injective(reg: map<string, PeerId>)
  {
    forall k1, k2 :: k1 in reg && k2 in reg && k1 != k2 ==> reg[k1] != reg[k2]
  }

  lemma KeysOfStep(reg: map<string, PeerId>, todo: set<string>, k: string, p: PeerId)
    requires k in todo && todo <= reg.Keys
    ensures KeysOf(reg - (todo - {k}), p) ==
      KeysOf(reg - todo, p) + (if reg[k] == p then {k} else {})
    ensures k !in KeysOf(reg - todo, p)
  {
  }

  /** Sending m to the peer of one more key extends a partial fan-out by that
      key. */
  lemma FanOutStep<M>(boxes: seq<seq<M>>, reg: map<string, PeerId>, todo: set<string>, k: string, m: M)
    requires k in todo && todo <= reg.Keys && reg[k] < |boxes|
    ensures Send(FanOut(boxes, reg - todo, m), reg[k], m) == FanOut(boxes, reg - (todo - {k}), m)
  {
    var before := FanOut(boxes, reg - todo, m);
    forall q | 0 <= q < |boxes|
      ensures Send(before, reg[k], m)[q] == FanOut(boxes, reg - (todo - {k}), m)[q]
    {
      KeysOfStep(reg, todo, k, q);
      if q == reg[k] {
        assert |KeysOf(reg - (todo - {k}), q)| == |KeysOf(reg - todo, q)| + 1;
      }
    }
  }

  /** The fan-out loop over the values of a registration map: one send per
      key, in whatever order the keys are visited. */
  method Broadcast<M>(boxes: seq<seq<M>>, reg: map<string, PeerId>, m: M) returns (r: seq<seq<M>>)
    requires forall k :: k in reg ==> reg[k] < |boxes|
    ensures r == FanOut(boxes, reg, m)
  {
    r := boxes;
    var todo := reg.Keys;
    forall q | 0 <= q < |boxes|
      ensures FanOut(boxes, reg - todo, m)[q] == boxes[q]
    {
      assert KeysOf(reg - todo, q) == {};
    }
    while todo != {}
      invariant todo <= reg.Keys
      invariant r == FanOut(boxes, reg - todo, m)
      decreases |todo|
    {
      var k :| k in todo;
      var p := reg[k];
      FanOutStep(boxes, reg, todo, k, m);
      r := Send(r, p, m);
      todo := todo - {k};
    }
    assert reg - {} == reg;
  }

  /** With every peer registered at most once, a fan-out delivers exactly one
      copy to each registered peer and nothing to anybody else. */
  lemma FanOutOnce<M>(boxes: seq<seq<M>>, reg: map<string, PeerId>, m: M)
    requires Injective(reg)
    ensures forall p :: 0 <= p < |boxes| ==>
      FanOut(boxes, reg, m)[p] == if p in reg.Values then boxes[p] + [m] else boxes[p]
  {
    forall p | 0 <= p < |boxes|
      ensures FanOut(boxes, reg, m)[p] == if p in reg.Values then boxes[p] + [m] else boxes[p]
    {
      if p in reg.Values {
        var k :| k in reg && reg[k] == p;
        assert KeysOf(reg, p) == {k};
      } else {
        assert KeysOf(reg, p) == {};
      }
    }
  }

  /** A fan-out over an empty registry sends nothing. */
  lemma FanOutNobody<M>(boxes: seq<seq<M>>, m: M)
    ensures FanOut(boxes, map[], m) == boxes
  {
    forall p | 0 <= p < |boxes|
      ensures FanOut(boxes, map[], m)[p] == boxes[p]
    {
      assert KeysOf(map[], p) == {};
    }
  }
}
