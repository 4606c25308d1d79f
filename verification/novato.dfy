/**
  The first variant of the game: the circular queue alone. The generator
  takes the identifier as an argument; the main routine supplies it from a
  local counter `idAtual`, post-incremented at each call. The menu offers
  playing the front piece (a dequeue that hands nothing back) and inserting
  a new piece.
 */
module Novato {
  import opened Pieces
  import Q = CircularQueue

  /** gerarPeca(id): the identifier is the one passed in. */
  function GeneratePiece(id: int, tipo: char): (p: Peca)
    requires IsTipo(tipo)
    ensures IsTipo(p.nome) && p.id == id
  {
    Peca(tipo, id)
  }

  /** desenfileirar of this variant, which hands nothing back: an empty
      queue stays as it was; otherwise the front index advances one slot
      around the ring, the count drops by one, and the logical front is
      gone with the rest keeping their order. */
  function Dequeue(f: Q.Fila): (r: Q.Fila)
    requires Q.Valid(f)
    ensures Q.Valid(r)
    ensures Q.IsEmpty(f) ==> r == f
    ensures !Q.IsEmpty(f) ==>
              && Q.Contents(r) == Q.Contents(f)[1..]
              && r.frente == (f.frente + 1) % Q.Capacity
              && r.qtd == f.qtd - 1
  {
    if Q.IsEmpty(f) then f
    else
      Q.AdvanceFront(f);
      Q.Fila(f.pecas, (f.frente + 1) % Q.Capacity, f.tras, f.qtd - 1)
  }

  /** This dequeue leaves the queue exactly as the dequeue that hands the
      front piece back does, whatever that one's sentinel. */
  lemma DequeueAgrees(f: Q.Fila, sentinel: Peca)
    requires Q.Valid(f)
    ensures Dequeue(f) == Q.Dequeue(f, sentinel).fila
  {
  }

  /** The queue and the identifier counter of the main routine. */
  datatype State = State(fila: Q.Fila, idAtual: nat)

  /** Menu options 1 and 2; option 0 and invalid options change nothing. */
  datatype Command = PlayPiece | InsertPiece(tipo: char) | NoAction

  predicate Drawable(c: Command) {
    c.InsertPiece? ==> IsTipo(c.tipo)
  }

  /** One menu action. Option 2 evaluates `gerarPeca(idAtual++)` before the
      enqueue looks at the queue, so the counter advances even when the
      queue is full and the new piece is dropped. */
  function Step(s: State, c: Command): (r: State)
    requires Q.Valid(s.fila) && Drawable(c)
    ensures Q.Valid(r.fila)
  {
    match c
    case PlayPiece => State(Dequeue(s.fila), s.idAtual)
    case InsertPiece(t) => State(Q.Enqueue(s.fila, GeneratePiece(s.idAtual, t)), s.idAtual + 1)
    case NoAction => s
  }

  function Run(s: State, cs: seq<Command>): (r: State)
    requires Q.Valid(s.fila) && forall i :: 0 <= i < |cs| ==> Drawable(cs[i])
    ensures Q.Valid(r.fila)
    decreases |cs|
  {
    if cs == [] then s else Run(Step(s, cs[0]), cs[1..])
  }

  /** Inserting into a full queue drops the new piece but still spends an
      identifier; inserting into a queue with room appends a piece carrying
      the current counter. Either way the counter moves on by one. */
  lemma InsertSpendsId(s: State, tipo: char)
    requires Q.Valid(s.fila) && IsTipo(tipo)
    ensures Step(s, InsertPiece(tipo)).idAtual == s.idAtual + 1
    ensures Q.IsFull(s.fila) ==> Step(s, InsertPiece(tipo)).fila == s.fila
    ensures !Q.IsFull(s.fila) ==>
              Q.Contents(Step(s, InsertPiece(tipo)).fila) == Q.Contents(s.fila) + [Peca(tipo, s.idAtual)]
  {
  }

  /** The start of the main routine: the queue initialised (its C array
      uninitialised, an arbitrary `storage` here) and then five pieces
      inserted with identifiers `idAtual++` from 0. The queue ends full with
      identifiers 0 to 4 in order, and the counter at 5. */
  method Start(storage: seq<Peca>, tipos: seq<char>) returns (s: State)
    requires |storage| == Q.Capacity && |tipos| == Q.Capacity && AllTipos(tipos)
    ensures Q.Valid(s.fila) && Q.IsFull(s.fila)
    ensures forall i :: 0 <= i < Q.Capacity ==> Q.Contents(s.fila)[i] == Peca(tipos[i], i)
    ensures s.idAtual == Q.Capacity
  {
    s := State(Q.Init(storage), 0);
    var i := 0;
    while i < Q.Capacity
      invariant 0 <= i <= Q.Capacity
      invariant Q.Valid(s.fila) && s.idAtual == i && |Q.Contents(s.fila)| == i
      invariant forall k :: 0 <= k < i ==> Q.Contents(s.fila)[k] == Peca(tipos[k], k)
    {
      s := Step(s, InsertPiece(tipos[i]));
      i := i + 1;
    }
  }

  /** Whatever the sequence of menu actions, the count stays within
      `[0, TAMANHO_FILA]`, the front index within `[0, TAMANHO_FILA)`, and
      the ring invariant holds. */
  lemma {:induction false} RunKeepsBounds(s: State, cs: seq<Command>)
    requires Q.Valid(s.fila)
    requires forall i :: 0 <= i < |cs| ==> Drawable(cs[i])
    ensures 0 <= Run(s, cs).fila.qtd <= Q.Capacity
    ensures 0 <= Run(s, cs).fila.frente < Q.Capacity
    ensures (Run(s, cs).fila.tras + 1) % Q.Capacity == (Run(s, cs).fila.frente + Run(s, cs).fila.qtd) % Q.Capacity
    decreases |cs|
  {
    if cs != [] {
      RunKeepsBounds(Step(s, cs[0]), cs[1..]);
    }
  }

  /** The queue lists its pieces in the order they were minted, each with an
      identifier already handed out. */
  ghost predicate Ordered(s: State)
    requires Q.Valid(s.fila)
  {
    IdsIncreasing(Q.Contents(s.fila)) && IdsWithin(Q.Contents(s.fila), 0, s.idAtual)
  }

  lemma StepKeepsOrder(s: State, c: Command)
    requires Q.Valid(s.fila) && Drawable(c) && Ordered(s)
    ensures Ordered(Step(s, c))
    ensures Step(s, c).idAtual >= s.idAtual
  {
    match c
    case PlayPiece =>
    case InsertPiece(t) =>
      var qc := Q.Contents(s.fila);
      var r := Step(s, c);
      if !Q.IsFull(s.fila) {
        assert Q.Contents(r.fila) == qc + [Peca(t, s.idAtual)];
      }
    case NoAction =>
  }

  /** Whatever the sequence of menu actions, the identifiers along the queue
      strictly increase from front to back and lie below the counter: the
      ids inserted are distinct and increasing, and none is reused. */
  lemma {:induction false} RunKeepsOrder(s: State, cs: seq<Command>)
    requires Q.Valid(s.fila) && Ordered(s)
    requires forall i :: 0 <= i < |cs| ==> Drawable(cs[i])
    ensures Ordered(Run(s, cs))
    ensures Run(s, cs).idAtual >= s.idAtual
    decreases |cs|
  {
    if cs != [] {
      StepKeepsOrder(s, cs[0]);
      RunKeepsOrder(Step(s, cs[0]), cs[1..]);
    }
  }
}
