/**
  The fixed-capacity circular queue of upcoming pieces.

  The queue is a ring of `Capacity` slots with a front index `frente`, a
  rear index `tras` (the slot written last, -1 before the first write) and a
  count `qtd`. Its logical contents are the `qtd` slots read from `frente`
  onwards, wrapping around the end of the ring; every contract below is
  stated against that logical sequence.
 */
module CircularQueue {
  import opened Pieces

  /** TAM_FILA / TAMANHO_FILA. */
  const Capacity: nat := 5

  datatype Fila = Fila(pecas: seq<Peca>, frente: int, tras: int, qtd: int)

  /** The ring invariant: the count is within capacity, both indices are
      slots of the ring (or -1 for a rear never written), and the slot after
      the rear is the slot `qtd` places past the front. */
  ghost predicate Valid(f: Fila) {
    && |f.pecas| == Capacity
    && 0 <= f.qtd <= Capacity
    && 0 <= f.frente < Capacity
    && -1 <= f.tras < Capacity
    && (f.tras + 1) % Capacity == (f.frente + f.qtd) % Capacity
  }

  /** The logical contents, front to back: slot `(frente + i) % Capacity`
      for `i` in `[0, qtd)`. */
  ghost function Contents(f: Fila): (c: seq<Peca>)
    requires Valid(f)
    ensures |c| == f.qtd
  {
    seq(f.qtd, i requires 0 <= i < f.qtd => f.pecas[(f.frente + i) % Capacity])
  }

  /** inicializarFila. The C array is left uninitialised, so its initial
      slots are an arbitrary `storage` of the right length. */
  function Init(storage: seq<Peca>): (f: Fila)
    requires |storage| == Capacity
    ensures Valid(f) && Contents(f) == []
    ensures f.frente == 0 && f.tras == -1 && f.qtd == 0
  {
    Fila(storage, 0, -1, 0)
  }

  /** filaCheia: the logical contents fill the whole ring. */
  function IsFull(f: Fila): (b: bool)
    requires Valid(f)
    ensures b <==> |Contents(f)| == Capacity
  {
    f.qtd == Capacity
  }

  /** filaVazia: there is nothing to take from the front. */
  function IsEmpty(f: Fila): (b: bool)
    requires Valid(f)
    ensures b <==> Contents(f) == []
  {
    f.qtd == 0
  }

  /** Two distinct offsets below the capacity name distinct slots. */
  lemma SlotsDistinct(frente: int, i: int, j: int)
    requires 0 <= frente < Capacity
    requires 0 <= i < Capacity && 0 <= j < Capacity && i != j
    ensures (frente + i) % Capacity != (frente + j) % Capacity
  {
  }

  /** Stepping one slot around the ring and then `i` more lands where
      `i + 1` steps from the start do. */
  lemma StepMod(a: int, i: int)
    requires 0 <= a && 0 <= i
    ensures ((a + 1) % Capacity + i) % Capacity == (a + (i + 1)) % Capacity
  {
  }

  /** Writing `p` one slot past the rear of a queue with room keeps the ring
      invariant and appends `p` to the logical contents. */
  lemma WriteAtRear(f: Fila, p: Peca)
    requires Valid(f) && f.qtd < Capacity
    ensures Valid(Fila(f.pecas[(f.tras + 1) % Capacity := p], f.frente, (f.tras + 1) % Capacity, f.qtd + 1))
    ensures Contents(Fila(f.pecas[(f.tras + 1) % Capacity := p], f.frente, (f.tras + 1) % Capacity, f.qtd + 1))
            == Contents(f) + [p]
  {
    var tras := (f.tras + 1) % Capacity;
    var r := Fila(f.pecas[tras := p], f.frente, tras, f.qtd + 1);
    assert tras == (f.frente + f.qtd) % Capacity;
    assert (tras + 1) % Capacity == (f.frente + f.qtd + 1) % Capacity;
    forall i | 0 <= i < f.qtd
      ensures Contents(r)[i] == Contents(f)[i]
    {
      SlotsDistinct(f.frente, i, f.qtd);
    }
    assert Contents(r) == Contents(f) + [p];
  }

  /** Advancing the front index of a non-empty queue by one slot, with the
      count dropping by one, keeps the ring invariant. */
  lemma AdvanceFrontValid(f: Fila)
    requires Valid(f) && f.qtd > 0
    ensures Valid(Fila(f.pecas, (f.frente + 1) % Capacity, f.tras, f.qtd - 1))
  {
    StepMod(f.frente, f.qtd - 1);
  }

  /** Advancing the front index of a non-empty queue by one slot keeps the
      ring invariant and drops the first logical element. */
  lemma AdvanceFront(f: Fila)
    requires Valid(f) && f.qtd > 0
    ensures Valid(Fila(f.pecas, (f.frente + 1) % Capacity, f.tras, f.qtd - 1))
    ensures Contents(Fila(f.pecas, (f.frente + 1) % Capacity, f.tras, f.qtd - 1)) == Contents(f)[1..]
  {
    AdvanceFrontValid(f);
    var r := Fila(f.pecas, (f.frente + 1) % Capacity, f.tras, f.qtd - 1);
    forall i | 0 <= i < f.qtd - 1
      ensures Contents(r)[i] == Contents(f)[1..][i]
    {
      StepMod(f.frente, i);
    }
    assert Contents(r) == Contents(f)[1..];
  }

  /** enfileirar: on a full queue nothing changes; otherwise `p` is written
      one slot past the rear and becomes the new last element, while the
      front stays where it was. */
  function Enqueue(f: Fila, p: Peca): (r: Fila)
    requires Valid(f)
    ensures Valid(r)
    ensures IsFull(f) ==> r == f
    ensures !IsFull(f) ==> Contents(r) == Contents(f) + [p] && r.frente == f.frente
    ensures !IsFull(f) ==> r.tras == (f.tras + 1) % Capacity && r.qtd == f.qtd + 1
  {
    if IsFull(f) then f
    else
      WriteAtRear(f, p);
      var tras := (f.tras + 1) % Capacity;
      Fila(f.pecas[tras := p], f.frente, tras, f.qtd + 1)
  }

  /** The piece a dequeue hands back and the queue it leaves behind. */
  datatype Removal = Removal(peca: Peca, fila: Fila)

  /** desenfileirar: on an empty queue the `sentinel` comes back and nothing
      changes; otherwise the front element comes back, the rest of the
      contents keep their order, and the front index advances by one slot
      around the ring. */
  function Dequeue(f: Fila, sentinel: Peca): (r: Removal)
    requires Valid(f)
    ensures Valid(r.fila)
    ensures IsEmpty(f) ==> r.peca == sentinel && r.fila == f
    ensures !IsEmpty(f) ==>
              && r.peca == Contents(f)[0]
              && Contents(r.fila) == Contents(f)[1..]
              && r.fila.frente == (f.frente + 1) % Capacity
              && r.fila.tras == f.tras
  {
    if IsEmpty(f) then Removal(sentinel, f)
    else
      var removida := f.pecas[f.frente];
      AdvanceFront(f);
      Removal(removida, Fila(f.pecas, (f.frente + 1) % Capacity, f.tras, f.qtd - 1))
  }

  /** After taking a piece from a non-empty queue there is always room for
      one more: the refill that follows every removal never meets a full
      queue. */
  lemma RoomAfterDequeue(f: Fila, sentinel: Peca)
    requires Valid(f) && !IsEmpty(f)
    ensures !IsFull(Dequeue(f, sentinel).fila)
  {
  }

  /** The slot after slot `a % Capacity` is slot `(a + 1) % Capacity`. */
  lemma NextSlot(a: int)
    requires 0 <= a
    ensures (a % Capacity + 1) % Capacity == (a + 1) % Capacity
  {
  }

  /** The first `i + 1` elements are the first `i` followed by the slot
      `i` places past the front. */
  lemma PrefixStep(f: Fila, i: int)
    requires Valid(f) && 0 <= i < f.qtd
    ensures Contents(f)[..i + 1] == Contents(f)[..i] + [f.pecas[(f.frente + i) % Capacity]]
  {
    assert Contents(f)[i] == f.pecas[(f.frente + i) % Capacity];
  }

  /** The queue traversal of the state display (index `(frente + i) %
      TAM_FILA` for `i` from 0 to `qtd`) lists exactly the logical
      contents, front to back. */
  method ListQueue(f: Fila) returns (out: seq<Peca>)
    requires Valid(f)
    ensures out == Contents(f)
  {
    out := [];
    var i := 0;
    while i < f.qtd
      invariant 0 <= i <= f.qtd
      invariant out == Contents(f)[..i]
    {
      var idx := (f.frente + i) % Capacity;
      PrefixStep(f, i);
      out := out + [f.pecas[idx]];
      i := i + 1;
    }
  }

  /** Enqueues `ps` one after another. */
  function EnqueueAll(f: Fila, ps: seq<Peca>): (r: Fila)
    requires Valid(f)
    ensures Valid(r)
    decreases |ps|
  {
    if ps == [] then f else EnqueueAll(Enqueue(f, ps[0]), ps[1..])
  }

  /** As long as the queue has room for all of them, enqueuing `ps` appends
      them in order. */
  lemma {:induction false} EnqueueAllAppends(f: Fila, ps: seq<Peca>)
    requires Valid(f) && |Contents(f)| + |ps| <= Capacity
    ensures Contents(EnqueueAll(f, ps)) == Contents(f) + ps
    decreases |ps|
  {
    if ps != [] {
      var g := Enqueue(f, ps[0]);
      assert Contents(g) == Contents(f) + [ps[0]];
      EnqueueAllAppends(g, ps[1..]);
      assert Contents(f) + [ps[0]] + ps[1..] == Contents(f) + ps;
    }
  }

  /** The pieces `n` dequeues hand back, in order, and the queue left. */
  datatype Drain = Drain(pecas: seq<Peca>, fila: Fila)

  function DequeueN(f: Fila, n: nat, sentinel: Peca): (r: Drain)
    requires Valid(f)
    ensures Valid(r.fila) && |r.pecas| == n
    decreases n
  {
    if n == 0 then Drain([], f)
    else
      var d := Dequeue(f, sentinel);
      var rest := DequeueN(d.fila, n - 1, sentinel);
      Drain([d.peca] + rest.pecas, rest.fila)
  }

  /** If the head of `c` comes first and then the first `n - 1` elements of
      its tail, the first `n` elements of `c` came out, and what is left of
      the tail is what lies past them. */
  lemma DrainStep(c: seq<Peca>, tail: seq<Peca>, head: Peca, taken: seq<Peca>, left: seq<Peca>, n: int)
    requires 0 < n <= |c| && head == c[0] && tail == c[1..]
    requires taken == tail[..n - 1] && left == tail[n - 1..]
    ensures [head] + taken == c[..n]
    ensures left == c[n..]
  {
  }

  /** `n` dequeues from a queue holding at least `n` pieces hand back its
      first `n` elements in order and leave the remaining ones. */
  lemma {:induction false} DequeueNTakesPrefix(f: Fila, n: nat, sentinel: Peca)
    requires Valid(f) && n <= |Contents(f)|
    ensures DequeueN(f, n, sentinel).pecas == Contents(f)[..n]
    ensures Contents(DequeueN(f, n, sentinel).fila) == Contents(f)[n..]
    decreases n
  {
    if n > 0 {
      var d := Dequeue(f, sentinel);
      var rest := DequeueN(d.fila, n - 1, sentinel);
      assert DequeueN(f, n, sentinel) == Drain([d.peca] + rest.pecas, rest.fila);
      DequeueNTakesPrefix(d.fila, n - 1, sentinel);
      DrainStep(Contents(f), Contents(d.fila), d.peca, rest.pecas, Contents(rest.fila), n);
    }
  }

  /** FIFO: up to `Capacity` enqueues into an empty queue followed by as many
      dequeues hand the pieces back in insertion order and leave the queue
      empty again. */
  lemma Fifo(f: Fila, ps: seq<Peca>, sentinel: Peca)
    requires Valid(f) && IsEmpty(f) && |ps| <= Capacity
    ensures DequeueN(EnqueueAll(f, ps), |ps|, sentinel).pecas == ps
    ensures IsEmpty(DequeueN(EnqueueAll(f, ps), |ps|, sentinel).fila)
  {
    EnqueueAllAppends(f, ps);
    DequeueNTakesPrefix(EnqueueAll(f, ps), |ps|, sentinel);
  }
}
