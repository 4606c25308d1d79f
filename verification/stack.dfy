/**
  The fixed-capacity reserve stack.

  The stack is an array of `Capacity` slots and a top index `topo`, -1 when
  the stack is empty. Its logical contents, bottom to top, are the slots
  `0..topo`; every contract below is stated against that sequence.
 */
module BoundedStack {
  import opened Pieces

  /** TAM_PILHA. */
  const Capacity: nat := 3

  datatype Pilha = Pilha(pecas: seq<Peca>, topo: int)

  /** The top index stays within `[-1, Capacity - 1]`. */
  ghost predicate Valid(p: Pilha) {
    |p.pecas| == Capacity && -1 <= p.topo < Capacity
  }

  /** The logical contents, bottom to top. */
  ghost function Contents(p: Pilha): (c: seq<Peca>)
    requires Valid(p)
    ensures |c| == p.topo + 1
  {
    p.pecas[..p.topo + 1]
  }

  /** inicializarPilha; the uninitialised C array is an arbitrary `storage`. */
  function Init(storage: seq<Peca>): (p: Pilha)
    requires |storage| == Capacity
    ensures Valid(p) && Contents(p) == []
  {
    Pilha(storage, -1)
  }

  /** pilhaVazia. */
  function IsEmpty(p: Pilha): (b: bool)
    requires Valid(p)
    ensures b <==> Contents(p) == []
  {
    p.topo == -1
  }

  /** pilhaCheia. */
  function IsFull(p: Pilha): (b: bool)
    requires Valid(p)
    ensures b <==> |Contents(p)| == Capacity
  {
    p.topo == Capacity - 1
  }

  /** empilhar: on a full stack nothing changes; otherwise `x` becomes the
      new top above the old contents. */
  function Push(p: Pilha, x: Peca): (r: Pilha)
    requires Valid(p)
    ensures Valid(r)
    ensures IsFull(p) ==> r == p
    ensures !IsFull(p) ==> Contents(r) == Contents(p) + [x]
  {
    if IsFull(p) then p
    else
      var topo := p.topo + 1;
      var r := Pilha(p.pecas[topo := x], topo);
      assert Contents(r) == Contents(p) + [x];
      r
  }

  /** The piece a pop hands back and the stack it leaves behind. */
  datatype Popped = Popped(peca: Peca, pilha: Pilha)

  /** desempilhar: on an empty stack the `sentinel` comes back and nothing
      changes; otherwise the top comes back and the rest stays below it. */
  function Pop(p: Pilha, sentinel: Peca): (r: Popped)
    requires Valid(p)
    ensures Valid(r.pilha)
    ensures IsEmpty(p) ==> r.peca == sentinel && r.pilha == p
    ensures !IsEmpty(p) ==>
              && r.peca == Contents(p)[|Contents(p)| - 1]
              && Contents(r.pilha) == Contents(p)[..|Contents(p)| - 1]
  {
    if IsEmpty(p) then Popped(sentinel, p)
    else Popped(p.pecas[p.topo], Pilha(p.pecas, p.topo - 1))
  }

  /** topoPilha: the top (or the `sentinel` on an empty stack); being a
      query, it hands back no new stack. */
  function Top(p: Pilha, sentinel: Peca): (x: Peca)
    requires Valid(p)
    ensures IsEmpty(p) ==> x == sentinel
    ensures !IsEmpty(p) ==> x == Contents(p)[|Contents(p)| - 1] && x == Pop(p, sentinel).peca
  {
    if IsEmpty(p) then sentinel else p.pecas[p.topo]
  }

  /** A push onto a stack with room, followed by a pop, hands back the pushed
      piece and restores the logical contents and the top index. (The slot
      above the top keeps the pushed piece; it is no longer part of the
      contents.) */
  lemma PushThenPop(p: Pilha, x: Peca, sentinel: Peca)
    requires Valid(p) && !IsFull(p)
    ensures Pop(Push(p, x), sentinel).peca == x
    ensures Contents(Pop(Push(p, x), sentinel).pilha) == Contents(p)
    ensures Pop(Push(p, x), sentinel).pilha.topo == p.topo
  {
  }

  /** The stack traversal of the state display (index `i` from `topo` down
      to 0) lists the logical contents from top to bottom. */
  method ListStack(p: Pilha) returns (out: seq<Peca>)
    requires Valid(p)
    ensures out == Reverse(Contents(p))
  {
    out := [];
    var i := p.topo;
    while i >= 0
      invariant -1 <= i <= p.topo
      invariant |out| == p.topo - i
      invariant forall k :: 0 <= k < |out| ==> out[k] == p.pecas[p.topo - k]
    {
      out := out + [p.pecas[i]];
      i := i - 1;
    }
    assert forall k :: 0 <= k < |out| ==> out[k] == Reverse(Contents(p))[k];
  }

  /** Pushes `xs` one after another. */
  function PushAll(p: Pilha, xs: seq<Peca>): (r: Pilha)
    requires Valid(p)
    ensures Valid(r)
    decreases |xs|
  {
    if xs == [] then p else PushAll(Push(p, xs[0]), xs[1..])
  }

  lemma {:induction false} PushAllAppends(p: Pilha, xs: seq<Peca>)
    requires Valid(p) && |Contents(p)| + |xs| <= Capacity
    ensures Contents(PushAll(p, xs)) == Contents(p) + xs
    decreases |xs|
  {
    if xs != [] {
      PushAllAppends(Push(p, xs[0]), xs[1..]);
      assert Contents(p) + [xs[0]] + xs[1..] == Contents(p) + xs;
    }
  }

  /** The pieces `n` pops hand back, in order, and the stack left. */
  datatype Drain = Drain(pecas: seq<Peca>, pilha: Pilha)

  function PopN(p: Pilha, n: nat, sentinel: Peca): (r: Drain)
    requires Valid(p)
    ensures Valid(r.pilha) && |r.pecas| == n
    decreases n
  {
    if n == 0 then Drain([], p)
    else
      var d := Pop(p, sentinel);
      var rest := PopN(d.pilha, n - 1, sentinel);
      Drain([d.peca] + rest.pecas, rest.pilha)
  }

  /** The sequence `xs` read from its end to its start. */
  function Reverse(xs: seq<Peca>): (r: seq<Peca>)
    ensures |r| == |xs|
    ensures forall k :: 0 <= k < |xs| ==> r[k] == xs[|xs| - 1 - k]
  {
    if xs == [] then [] else [xs[|xs| - 1]] + Reverse(xs[..|xs| - 1])
  }

  /** The top `n` elements read topmost first are the top element followed
      by the top `n - 1` of the rest; below the top `n` lies what is below
      the top `n - 1` of the rest. */
  lemma SplitTop(c: seq<Peca>, n: int)
    requires 0 < n <= |c|
    ensures Reverse(c[|c| - n..]) == [c[|c| - 1]] + Reverse(c[..|c| - 1][|c| - n..])
    ensures c[..|c| - 1][..|c| - n] == c[..|c| - n]
  {
    var top := c[|c| - n..];
    var below := c[..|c| - 1][|c| - n..];
    assert |below| == n - 1;
    assert forall k :: 0 <= k < n - 1 ==> below[k] == top[k];
  }

  /** `n` pops from a stack holding at least `n` pieces hand back its top
      `n` elements, topmost first, and leave the ones below. */
  lemma {:induction false} PopNTakesTop(p: Pilha, n: nat, sentinel: Peca)
    requires Valid(p) && n <= |Contents(p)|
    ensures PopN(p, n, sentinel).pecas == Reverse(Contents(p)[|Contents(p)| - n..])
    ensures Contents(PopN(p, n, sentinel).pilha) == Contents(p)[..|Contents(p)| - n]
    decreases n
  {
    if n > 0 {
      var d := Pop(p, sentinel);
      var rest := PopN(d.pilha, n - 1, sentinel);
      assert PopN(p, n, sentinel) == Drain([d.peca] + rest.pecas, rest.pilha);
      PopNTakesTop(d.pilha, n - 1, sentinel);
      SplitTop(Contents(p), n);
    }
  }

  /** LIFO: up to `Capacity` pushes onto an empty stack followed by as many
      pops hand the pieces back in reverse order and leave the stack empty. */
  lemma Lifo(p: Pilha, xs: seq<Peca>, sentinel: Peca)
    requires Valid(p) && IsEmpty(p) && |xs| <= Capacity
    ensures PopN(PushAll(p, xs), |xs|, sentinel).pecas == Reverse(xs)
    ensures IsEmpty(PopN(PushAll(p, xs), |xs|, sentinel).pilha)
  {
    PushAllAppends(p, xs);
    PopNTakesTop(PushAll(p, xs), |xs|, sentinel);
    assert Contents(PushAll(p, xs))[|xs| - |xs|..] == xs;
  }
}
