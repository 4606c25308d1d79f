/**
  The intermediate variant of the game: the same queue and stack, with the
  play, reserve and use actions written directly in the main menu's switch.
  Empty-container removals hand back the sentinel piece `{'?', -1}`, and the
  refill after a play or a reserve is not guarded by a fullness test.
 */
module Aventureiro {
  import opened Pieces
  import Q = CircularQueue
  import S = BoundedStack
  import opened Game
  import Mestre

  const Sentinel := Peca('?', -1)

  /** desenfileirar of this variant: an empty queue hands back `{'?', -1}`
      and stays as it was; otherwise the front leaves and the rest keep
      their order. */
  function Dequeue(f: Q.Fila): (r: Q.Removal)
    requires Q.Valid(f)
    ensures Q.Valid(r.fila)
    ensures Q.IsEmpty(f) ==> r.peca == Peca('?', -1) && r.fila == f
    ensures !Q.IsEmpty(f) ==> r.peca == Q.Contents(f)[0] && Q.Contents(r.fila) == Q.Contents(f)[1..]
  {
    Q.Dequeue(f, Sentinel)
  }

  /** desempilhar of this variant: an empty stack hands back `{'?', -1}`
      and stays as it was; otherwise the top leaves. */
  function Pop(p: S.Pilha): (r: S.Popped)
    requires S.Valid(p)
    ensures S.Valid(r.pilha)
    ensures S.IsEmpty(p) ==> r.peca == Peca('?', -1) && r.pilha == p
    ensures !S.IsEmpty(p) ==>
              && r.peca == S.Contents(p)[|S.Contents(p)| - 1]
              && S.Contents(r.pilha) == S.Contents(p)[..|S.Contents(p)| - 1]
  {
    S.Pop(p, Sentinel)
  }

  /** Menu option 1: on an empty queue nothing changes; otherwise the front
      is played and a freshly minted piece is enqueued unconditionally, so
      the queue keeps its length. */
  function Play(s: State, tipo: char): (r: State)
    requires Valid(s) && IsTipo(tipo)
    ensures Valid(r)
    ensures Q.IsEmpty(s.fila) ==> r == s
    ensures !Q.IsEmpty(s.fila) ==>
              && |Q.Contents(r.fila)| == |Q.Contents(s.fila)|
              && Q.Contents(r.fila) == Q.Contents(s.fila)[1..] + [Peca(tipo, s.contador)]
              && r.pilha == s.pilha && r.contador == s.contador + 1
  {
    if Q.IsEmpty(s.fila) then s
    else
      var jogada := Dequeue(s.fila);
      var nova := Generate(s.contador, tipo);
      State(Q.Enqueue(jogada.fila, nova.peca), s.pilha, nova.contador)
  }

  /** Menu option 2: refused when the queue is empty or the stack is full;
      otherwise the front moves onto the stack and a freshly minted piece
      is enqueued unconditionally. */
  function Reserve(s: State, tipo: char): (r: State)
    requires Valid(s) && IsTipo(tipo)
    ensures Valid(r)
    ensures Q.IsEmpty(s.fila) || S.IsFull(s.pilha) ==> r == s
    ensures !Q.IsEmpty(s.fila) && !S.IsFull(s.pilha) ==>
              && S.Contents(r.pilha) == S.Contents(s.pilha) + [Q.Contents(s.fila)[0]]
              && Q.Contents(r.fila) == Q.Contents(s.fila)[1..] + [Peca(tipo, s.contador)]
              && r.contador == s.contador + 1
  {
    if Q.IsEmpty(s.fila) then s
    else if S.IsFull(s.pilha) then s
    else
      var reservada := Dequeue(s.fila);
      var pilha := S.Push(s.pilha, reservada.peca);
      var nova := Generate(s.contador, tipo);
      State(Q.Enqueue(reservada.fila, nova.peca), pilha, nova.contador)
  }

  /** Menu option 3: pops the top when the stack is not empty; the queue and
      the counter are never touched. */
  function UseReserved(s: State): (r: State)
    requires Valid(s)
    ensures Valid(r)
    ensures r.fila == s.fila && r.contador == s.contador
    ensures S.IsEmpty(s.pilha) ==> r == s
    ensures !S.IsEmpty(s.pilha) ==> S.Contents(r.pilha) == S.Contents(s.pilha)[..|S.Contents(s.pilha)| - 1]
  {
    if S.IsEmpty(s.pilha) then s
    else State(s.fila, Pop(s.pilha).pilha, s.contador)
  }

  /** The unconditional refill of option 1 and the refill of jogarPeca,
      guarded by a fullness test, are the same action: a successful dequeue
      always leaves room, so the guard never fails. */
  lemma PlayAgreesWithMestre(s: State, tipo: char)
    requires Valid(s) && IsTipo(tipo)
    ensures Play(s, tipo) == Mestre.Play(s, tipo)
  {
    if !Q.IsEmpty(s.fila) {
      Q.RoomAfterDequeue(s.fila, Sentinel);
    }
  }

  /** Option 2 and reservarPeca are the same action, for the same reason. */
  lemma ReserveAgreesWithMestre(s: State, tipo: char)
    requires Valid(s) && IsTipo(tipo)
    ensures Reserve(s, tipo) == Mestre.Reserve(s, tipo)
  {
    if !Q.IsEmpty(s.fila) && !S.IsFull(s.pilha) {
      Q.RoomAfterDequeue(s.fila, Sentinel);
    }
  }

  /** Option 3 and usarPecaReservada are the same action. */
  lemma UseAgreesWithMestre(s: State)
    requires Valid(s)
    ensures UseReserved(s) == Mestre.UseReserved(s)
  {
  }

  /** The state display of this variant: the queue is walked with an index
      that starts at `frente` and steps by one around the ring, `qtd` times;
      the stack is listed from `topo` down to 0. The two listings are the
      logical queue contents front to back and the stack contents top to
      bottom. (An empty container prints a "(vazia)" marker instead; the
      listing is then empty.) */
  method ListState(s: State) returns (fila: seq<Peca>, pilha: seq<Peca>)
    requires Valid(s)
    ensures fila == Q.Contents(s.fila)
    ensures pilha == S.Reverse(S.Contents(s.pilha))
  {
    fila := [];
    if !Q.IsEmpty(s.fila) {
      var i := 0;
      var index := s.fila.frente;
      while i < s.fila.qtd
        invariant 0 <= i <= s.fila.qtd
        invariant index == (s.fila.frente + i) % Q.Capacity
        invariant fila == Q.Contents(s.fila)[..i]
      {
        Q.PrefixStep(s.fila, i);
        Q.NextSlot(s.fila.frente + i);
        fila := fila + [s.fila.pecas[index]];
        index := (index + 1) % Q.Capacity;
        i := i + 1;
      }
    }
    pilha := S.ListStack(s.pilha);
  }

  /** One action of the main menu: options 1 to 3; option 0 and invalid
      options change nothing. */
  datatype Command =
    | PlayPiece(tipo: char)
    | ReservePiece(tipo: char)
    | UsePiece
    | NoAction

  predicate Drawable(c: Command) {
    (c.PlayPiece? || c.ReservePiece?) ==> IsTipo(c.tipo)
  }

  function Step(s: State, c: Command): (r: State)
    requires Valid(s) && Drawable(c)
    ensures Valid(r)
  {
    match c
    case PlayPiece(t) => Play(s, t)
    case ReservePiece(t) => Reserve(s, t)
    case UsePiece => UseReserved(s)
    case NoAction => s
  }

  function Run(s: State, cs: seq<Command>): (r: State)
    requires Valid(s) && forall i :: 0 <= i < |cs| ==> Drawable(cs[i])
    ensures Valid(r)
    decreases |cs|
  {
    if cs == [] then s else Run(Step(s, cs[0]), cs[1..])
  }

  /** The pieces held, read from the bottom of the stack up to its top and
      then along the queue from front to back, carry strictly increasing
      identifiers, all already minted. Without swaps, pieces only ever move
      from the queue front to the stack top and fresh ones only join at the
      queue rear, so this order is never disturbed. */
  ghost predicate Ordered(s: State)
    requires Valid(s)
  {
    && IdsIncreasing(S.Contents(s.pilha) + Q.Contents(s.fila))
    && IdsWithin(S.Contents(s.pilha) + Q.Contents(s.fila), 0, s.contador)
  }

  /** Removing one element keeps a sequence's identifiers increasing and in
      range. */
  lemma RemovalKeepsOrder(xs: seq<Peca>, k: int, lo: int, hi: int)
    requires 0 <= k < |xs| && IdsIncreasing(xs) && IdsWithin(xs, lo, hi)
    ensures IdsIncreasing(xs[..k] + xs[k + 1..]) && IdsWithin(xs[..k] + xs[k + 1..], lo, hi)
  {
    var ys := xs[..k] + xs[k + 1..];
    assert forall i :: 0 <= i < |ys| ==> ys[i] == (if i < k then xs[i] else xs[i + 1]);
  }

  /** Appending a piece whose identifier is the counter keeps identifiers
      increasing, with the counter advanced past it. */
  lemma MintKeepsOrder(xs: seq<Peca>, contador: nat, tipo: char)
    requires IdsIncreasing(xs) && IdsWithin(xs, 0, contador) && IsTipo(tipo)
    ensures IdsIncreasing(xs + [Generate(contador, tipo).peca])
    ensures IdsWithin(xs + [Generate(contador, tipo).peca], 0, Generate(contador, tipo).contador)
  {
  }

  lemma StepKeepsOrder(s: State, c: Command)
    requires Valid(s) && Drawable(c) && Ordered(s)
    ensures Ordered(Step(s, c))
  {
    var sc := S.Contents(s.pilha);
    var qc := Q.Contents(s.fila);
    match c
    case PlayPiece(t) =>
      if !Q.IsEmpty(s.fila) {
        var k := |sc|;
        RemovalKeepsOrder(sc + qc, k, 0, s.contador);
        assert (sc + qc)[..k] + (sc + qc)[k + 1..] == sc + qc[1..];
        MintKeepsOrder(sc + qc[1..], s.contador, t);
        assert sc + qc[1..] + [Peca(t, s.contador)] == sc + (qc[1..] + [Peca(t, s.contador)]);
      }
    case ReservePiece(t) =>
      if !Q.IsEmpty(s.fila) && !S.IsFull(s.pilha) {
        assert sc + [qc[0]] + qc[1..] == sc + qc;
        MintKeepsOrder(sc + qc, s.contador, t);
        assert (sc + [qc[0]]) + (qc[1..] + [Peca(t, s.contador)]) == sc + qc + [Peca(t, s.contador)];
      }
    case UsePiece =>
      if !S.IsEmpty(s.pilha) {
        var k := |sc| - 1;
        RemovalKeepsOrder(sc + qc, k, 0, s.contador);
        assert (sc + qc)[..k] + (sc + qc)[k + 1..] == sc[..k] + qc;
      }
    case NoAction =>
  }

  /** Whatever the sequence of menu actions, the order of identifiers from
      the stack bottom through the queue rear stays strictly increasing;
      in particular the queue lists its pieces in the order they were
      minted, and no two pieces held share an identifier. */
  lemma {:induction false} RunKeepsOrder(s: State, cs: seq<Command>)
    requires Valid(s) && Ordered(s)
    requires forall i :: 0 <= i < |cs| ==> Drawable(cs[i])
    ensures Ordered(Run(s, cs))
    ensures IdsIncreasing(Q.Contents(Run(s, cs).fila))
    decreases |cs|
  {
    if cs == [] {
      var sc := S.Contents(s.pilha);
      var qc := Q.Contents(s.fila);
      assert forall i :: 0 <= i < |qc| ==> qc[i] == (sc + qc)[|sc| + i];
    } else {
      StepKeepsOrder(s, cs[0]);
      RunKeepsOrder(Step(s, cs[0]), cs[1..]);
    }
  }
}
