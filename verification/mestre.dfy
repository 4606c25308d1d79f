/**
  The full variant of the game: play with refill, reserve, use a reserved
  piece, swap the queue front with the stack top, and swap three pieces
  pairwise between the two containers.

  Empty-container removals hand back the sentinel piece `{'-', -1}`.
  Refused actions print a message and leave the state as it was; the
  message is not modelled.
 */
module Mestre {
  import opened Pieces
  import Q = CircularQueue
  import S = BoundedStack
  import opened Game

  const Sentinel := Peca('-', -1)

  /** desenfileirar of this version: an empty queue hands back `{'-', -1}`
      and stays as it was; otherwise the front leaves and the rest keep
      their order. */
  function Dequeue(f: Q.Fila): (r: Q.Removal)
    requires Q.Valid(f)
    ensures Q.Valid(r.fila)
    ensures Q.IsEmpty(f) ==> r.peca == Peca('-', -1) && r.fila == f
    ensures !Q.IsEmpty(f) ==> r.peca == Q.Contents(f)[0] && Q.Contents(r.fila) == Q.Contents(f)[1..]
  {
    Q.Dequeue(f, Sentinel)
  }

  /** desempilhar of this version: an empty stack hands back `{'-', -1}`
      and stays as it was; otherwise the top leaves. */
  function Pop(p: S.Pilha): (r: S.Popped)
    requires S.Valid(p)
    ensures S.Valid(r.pilha)
    ensures S.IsEmpty(p) ==> r.peca == Peca('-', -1) && r.pilha == p
    ensures !S.IsEmpty(p) ==>
              && r.peca == S.Contents(p)[|S.Contents(p)| - 1]
              && S.Contents(r.pilha) == S.Contents(p)[..|S.Contents(p)| - 1]
  {
    S.Pop(p, Sentinel)
  }

  /** topoPilha: `{'-', -1}` on an empty stack, otherwise the top piece,
      which is the piece a pop would hand back. */
  function Top(p: S.Pilha): (x: Peca)
    requires S.Valid(p)
    ensures S.IsEmpty(p) ==> x == Peca('-', -1)
    ensures !S.IsEmpty(p) ==> x == S.Contents(p)[|S.Contents(p)| - 1] && x == Pop(p).peca
  {
    S.Top(p, Sentinel)
  }

  /** jogarPeca: on an empty queue nothing changes. Otherwise the front
      piece leaves, and — the queue then having room — exactly one freshly
      minted piece joins at the rear, so the queue length is unchanged. */
  function Play(s: State, tipo: char): (r: State)
    requires Valid(s) && IsTipo(tipo)
    ensures Valid(r)
    ensures Q.IsEmpty(s.fila) ==> r == s
    ensures !Q.IsEmpty(s.fila) ==>
              && Q.Contents(r.fila) == Q.Contents(s.fila)[1..] + [Peca(tipo, s.contador)]
              && r.contador == s.contador + 1
              && r.pilha == s.pilha
              && AllPieces(r) == AllPieces(s) - multiset{Q.Contents(s.fila)[0]} + multiset{Peca(tipo, s.contador)}
  {
    if Q.IsEmpty(s.fila) then s
    else
      var jogada := Dequeue(s.fila);
      if !Q.IsFull(jogada.fila) then
        var nova := Generate(s.contador, tipo);
        var r := State(Q.Enqueue(jogada.fila, nova.peca), s.pilha, nova.contador);
        assert Q.Contents(s.fila) == [Q.Contents(s.fila)[0]] + Q.Contents(s.fila)[1..];
        r
      else
        State(jogada.fila, s.pilha, s.contador)
  }

  /** reservarPeca: refused, with nothing changed, when the queue is empty
      or the stack is full. Otherwise the queue front becomes the new stack
      top, and one freshly minted piece refills the queue at its rear. */
  function Reserve(s: State, tipo: char): (r: State)
    requires Valid(s) && IsTipo(tipo)
    ensures Valid(r)
    ensures Q.IsEmpty(s.fila) || S.IsFull(s.pilha) ==> r == s
    ensures !Q.IsEmpty(s.fila) && !S.IsFull(s.pilha) ==>
              && S.Contents(r.pilha) == S.Contents(s.pilha) + [Q.Contents(s.fila)[0]]
              && Q.Contents(r.fila) == Q.Contents(s.fila)[1..] + [Peca(tipo, s.contador)]
              && r.contador == s.contador + 1
              && AllPieces(r) == AllPieces(s) + multiset{Peca(tipo, s.contador)}
  {
    if Q.IsEmpty(s.fila) || S.IsFull(s.pilha) then s
    else
      var reservada := Dequeue(s.fila);
      var pilha := S.Push(s.pilha, reservada.peca);
      if !Q.IsFull(reservada.fila) then
        var nova := Generate(s.contador, tipo);
        var r := State(Q.Enqueue(reservada.fila, nova.peca), pilha, nova.contador);
        assert Q.Contents(s.fila) == [Q.Contents(s.fila)[0]] + Q.Contents(s.fila)[1..];
        r
      else
        State(reservada.fila, pilha, s.contador)
  }

  /** usarPecaReservada: on an empty stack nothing changes; otherwise the
      top piece is consumed. The queue is never touched. */
  function UseReserved(s: State): (r: State)
    requires Valid(s)
    ensures Valid(r)
    ensures r.fila == s.fila && r.contador == s.contador
    ensures S.IsEmpty(s.pilha) ==> r == s
    ensures !S.IsEmpty(s.pilha) ==>
              && S.Contents(r.pilha) == S.Contents(s.pilha)[..|S.Contents(s.pilha)| - 1]
              && AllPieces(r) == AllPieces(s) - multiset{S.Contents(s.pilha)[|S.Contents(s.pilha)| - 1]}
  {
    if S.IsEmpty(s.pilha) then s
    else
      var usada := Pop(s.pilha);
      var c := S.Contents(s.pilha);
      assert c == c[..|c| - 1] + [c[|c| - 1]];
      State(s.fila, usada.pilha, s.contador)
  }

  /** `multiset(xs[i := v])` trades one occurrence of `xs[i]` for `v`. */
  lemma MultisetUpdate(xs: seq<Peca>, i: int, v: Peca)
    requires 0 <= i < |xs|
    ensures multiset(xs[i := v]) == multiset(xs) - multiset{xs[i]} + multiset{v}
  {
    assert xs == xs[..i] + [xs[i]] + xs[i + 1..];
    assert xs[i := v] == xs[..i] + [v] + xs[i + 1..];
  }

  /** Writing `v` into the slot of logical position `i` replaces exactly
      that element of the queue's contents. */
  lemma QueueSlotWrite(f: Q.Fila, i: int, v: Peca)
    requires Q.Valid(f) && 0 <= i < f.qtd
    ensures Q.Valid(f.(pecas := f.pecas[(f.frente + i) % Q.Capacity := v]))
    ensures Q.Contents(f.(pecas := f.pecas[(f.frente + i) % Q.Capacity := v])) == Q.Contents(f)[i := v]
  {
    var g := f.(pecas := f.pecas[(f.frente + i) % Q.Capacity := v]);
    forall k | 0 <= k < f.qtd && k != i
      ensures Q.Contents(g)[k] == Q.Contents(f)[k]
    {
      Q.SlotsDistinct(f.frente, i, k);
    }
  }

  /** Writing `v` into stack index `j` replaces exactly that element of the
      stack's contents. */
  lemma StackSlotWrite(p: S.Pilha, j: int, v: Peca)
    requires S.Valid(p) && 0 <= j <= p.topo
    ensures S.Valid(p.(pecas := p.pecas[j := v]))
    ensures S.Contents(p.(pecas := p.pecas[j := v])) == S.Contents(p)[j := v]
  {
    assert S.Contents(p.(pecas := p.pecas[j := v])) == S.Contents(p)[j := v];
  }

  /** Trading `qc[i]` and `sc[j]` between two sequences keeps the multiset
      of their elements together. */
  lemma TradeKeepsMultiset(qc: seq<Peca>, sc: seq<Peca>, i: int, j: int)
    requires 0 <= i < |qc| && 0 <= j < |sc|
    ensures multiset(qc[i := sc[j]]) + multiset(sc[j := qc[i]]) == multiset(qc) + multiset(sc)
  {
    MultisetUpdate(qc, i, sc[j]);
    MultisetUpdate(sc, j, qc[i]);
  }

  /** The state in which logical queue position `i` and stack index `j`
      have traded values, written as trocarMultiplas writes it. */
  function Traded(s: State, i: int, j: int): State
    requires Valid(s) && 0 <= i < s.fila.qtd && 0 <= j <= s.pilha.topo
  {
    var idxFila := (s.fila.frente + i) % Q.Capacity;
    var temp := s.fila.pecas[idxFila];
    State(s.fila.(pecas := s.fila.pecas[idxFila := s.pilha.pecas[j]]),
          s.pilha.(pecas := s.pilha.pecas[j := temp]),
          s.contador)
  }

  /** The logical effect of `Traded`. */
  lemma TradedContents(s: State, i: int, j: int)
    requires Valid(s) && 0 <= i < s.fila.qtd && 0 <= j <= s.pilha.topo
    ensures Valid(Traded(s, i, j))
    ensures Q.Contents(Traded(s, i, j).fila) == Q.Contents(s.fila)[i := S.Contents(s.pilha)[j]]
    ensures S.Contents(Traded(s, i, j).pilha) == S.Contents(s.pilha)[j := Q.Contents(s.fila)[i]]
    ensures AllPieces(Traded(s, i, j)) == AllPieces(s)
  {
    var r := Traded(s, i, j);
    var qc := Q.Contents(s.fila);
    var sc := S.Contents(s.pilha);
    var idxFila := (s.fila.frente + i) % Q.Capacity;
    QueueSlotWrite(s.fila, i, s.pilha.pecas[j]);
    StackSlotWrite(s.pilha, j, s.fila.pecas[idxFila]);
    assert Q.Contents(r.fila) == qc[i := sc[j]];
    assert S.Contents(r.pilha) == sc[j := qc[i]];
    TradeKeepsMultiset(qc, sc, i, j);
  }

  /** One exchange of the swap operations: the value at logical queue
      position `i` and the value at stack index `j` trade places. Nothing
      else moves: no index or count changes, every other slot of either
      container keeps its value, and the pieces held overall are the same. */
  function Exchange(s: State, i: int, j: int): (r: State)
    requires Valid(s) && 0 <= i < s.fila.qtd && 0 <= j <= s.pilha.topo
    ensures Valid(r)
    ensures r.fila.frente == s.fila.frente && r.fila.tras == s.fila.tras && r.fila.qtd == s.fila.qtd
    ensures r.pilha.topo == s.pilha.topo && r.contador == s.contador
    ensures Q.Contents(r.fila) == Q.Contents(s.fila)[i := S.Contents(s.pilha)[j]]
    ensures S.Contents(r.pilha) == S.Contents(s.pilha)[j := Q.Contents(s.fila)[i]]
    ensures forall k :: 0 <= k < Q.Capacity && k != (s.fila.frente + i) % Q.Capacity ==>
              r.fila.pecas[k] == s.fila.pecas[k]
    ensures forall k :: 0 <= k < S.Capacity && k != j ==> r.pilha.pecas[k] == s.pilha.pecas[k]
    ensures AllPieces(r) == AllPieces(s)
  {
    TradedContents(s, i, j);
    Traded(s, i, j)
  }

  /** trocarTopo: refused, with nothing changed, when either container is
      empty. Otherwise the queue front and the stack top trade values; no
      index or count changes and the pieces held overall are the same. */
  function SwapTop(s: State): (r: State)
    requires Valid(s)
    ensures Valid(r)
    ensures r.fila.frente == s.fila.frente && r.fila.tras == s.fila.tras && r.fila.qtd == s.fila.qtd
    ensures r.pilha.topo == s.pilha.topo && r.contador == s.contador
    ensures Q.IsEmpty(s.fila) || S.IsEmpty(s.pilha) ==> r == s
    ensures !Q.IsEmpty(s.fila) && !S.IsEmpty(s.pilha) ==>
              && Q.Contents(r.fila)[0] == S.Contents(s.pilha)[s.pilha.topo]
              && S.Contents(r.pilha)[s.pilha.topo] == Q.Contents(s.fila)[0]
              && Q.Contents(r.fila)[1..] == Q.Contents(s.fila)[1..]
              && S.Contents(r.pilha)[..s.pilha.topo] == S.Contents(s.pilha)[..s.pilha.topo]
    ensures AllPieces(r) == AllPieces(s)
  {
    if Q.IsEmpty(s.fila) || S.IsEmpty(s.pilha) then s
    else Exchange(s, 0, s.pilha.topo)
  }

  /** `qr` and `sr` are the queue and stack contents `qc` and `sc` after
      the pairs `k` in `[i, 3)` have traded values: logical queue position
      `k` with stack index `|sc| - 1 - k` (the stack top being index
      `|sc| - 1`). Every other position keeps its value. */
  ghost predicate PairsSwapped(qc: seq<Peca>, sc: seq<Peca>, qr: seq<Peca>, sr: seq<Peca>, i: int) {
    && 0 <= i <= 3 && |qr| == |qc| && |sr| == |sc| && 3 <= |qc| && 3 <= |sc|
    && (forall k :: i <= k < 3 ==> qr[k] == sc[|sc| - 1 - k] && sr[|sc| - 1 - k] == qc[k])
    && (forall k :: 0 <= k < |qc| && !(i <= k < 3) ==> qr[k] == qc[k])
    && (forall k :: 0 <= k < |sc| && !(|sc| - 3 <= k < |sc| - i) ==> sr[k] == sc[k])
  }

  /** Trading pair `i` first and then the pairs from `i + 1` on trades the
      pairs from `i` on. */
  lemma PairsSwappedStep(qc: seq<Peca>, sc: seq<Peca>, qt: seq<Peca>, st: seq<Peca>,
                         qr: seq<Peca>, sr: seq<Peca>, i: int, j: int)
    requires 0 <= i < 3 && 3 <= |qc| && 3 <= |sc| && j == |sc| - 1 - i
    requires qt == qc[i := sc[j]] && st == sc[j := qc[i]]
    requires PairsSwapped(qt, st, qr, sr, i + 1)
    ensures PairsSwapped(qc, sc, qr, sr, i)
  {
  }

  /** The loop of trocarMultiplas from iteration `i` on: for each remaining
      `k` in `[i, 3)`, logical queue position `k` trades values with stack
      index `topo - k`. Positions outside those pairs keep their values. */
  function SwapPairsFrom(s: State, i: int): (r: State)
    requires Valid(s) && 0 <= i <= 3 && 3 <= s.fila.qtd && 2 <= s.pilha.topo
    ensures Valid(r)
    ensures r.fila.frente == s.fila.frente && r.fila.tras == s.fila.tras && r.fila.qtd == s.fila.qtd
    ensures r.pilha.topo == s.pilha.topo && r.contador == s.contador
    ensures PairsSwapped(Q.Contents(s.fila), S.Contents(s.pilha), Q.Contents(r.fila), S.Contents(r.pilha), i)
    ensures AllPieces(r) == AllPieces(s)
    decreases 3 - i
  {
    if i == 3 then s
    else
      var j := s.pilha.topo - i;
      var t := Exchange(s, i, j);
      var r := SwapPairsFrom(t, i + 1);
      PairsSwappedStep(Q.Contents(s.fila), S.Contents(s.pilha), Q.Contents(t.fila), S.Contents(t.pilha),
                       Q.Contents(r.fila), S.Contents(r.pilha), i, j);
      r
  }

  /** All three pairs traded, read back as statements about the front three
      queue positions, the rest of the queue, the top three stack indices
      and the rest of the stack. */
  lemma AllPairsSwapped(qc: seq<Peca>, sc: seq<Peca>, qr: seq<Peca>, sr: seq<Peca>, topo: int)
    requires PairsSwapped(qc, sc, qr, sr, 0) && topo == |sc| - 1
    ensures qr[..3] == [sc[topo], sc[topo - 1], sc[topo - 2]]
    ensures sr[topo - 2..] == [qc[2], qc[1], qc[0]]
    ensures qr[3..] == qc[3..]
    ensures sr[..topo - 2] == sc[..topo - 2]
  {
    assert forall k :: 0 <= k < |qc| - 3 ==> qr[3..][k] == qr[k + 3];
    assert forall k :: 0 <= k < |sc| - 3 ==> sr[..|sc| - 3][k] == sr[k];
  }

  /** trocarMultiplas: refused, with nothing changed, unless the queue holds
      at least three pieces and the stack is at least three deep. Otherwise,
      for `i` in 0, 1, 2, logical queue position `i` trades values with stack
      index `topo - i`: the three front pieces of the queue become the three
      top pieces of the stack read top-down, and vice versa. Everything else,
      every index and count, and the pieces held overall stay the same. */
  function SwapThree(s: State): (r: State)
    requires Valid(s)
    ensures Valid(r)
    ensures r.fila.frente == s.fila.frente && r.fila.tras == s.fila.tras && r.fila.qtd == s.fila.qtd
    ensures r.pilha.topo == s.pilha.topo && r.contador == s.contador
    ensures s.fila.qtd < 3 || s.pilha.topo < 2 ==> r == s
    ensures s.fila.qtd >= 3 && s.pilha.topo >= 2 ==>
              && Q.Contents(r.fila)[..3]
                 == [S.Contents(s.pilha)[s.pilha.topo], S.Contents(s.pilha)[s.pilha.topo - 1],
                     S.Contents(s.pilha)[s.pilha.topo - 2]]
              && S.Contents(r.pilha)[s.pilha.topo - 2..]
                 == [Q.Contents(s.fila)[2], Q.Contents(s.fila)[1], Q.Contents(s.fila)[0]]
              && Q.Contents(r.fila)[3..] == Q.Contents(s.fila)[3..]
              && S.Contents(r.pilha)[..s.pilha.topo - 2] == S.Contents(s.pilha)[..s.pilha.topo - 2]
    ensures AllPieces(r) == AllPieces(s)
  {
    if s.fila.qtd < 3 || s.pilha.topo < 2 then s
    else
      var r := SwapPairsFrom(s, 0);
      AllPairsSwapped(Q.Contents(s.fila), S.Contents(s.pilha), Q.Contents(r.fila), S.Contents(r.pilha), s.pilha.topo);
      r
  }

  /** One action of the main menu: options 1 to 5; option 0 and invalid
      options change nothing. The letter is the one the random generator
      would draw for a refill. */
  datatype Command =
    | PlayPiece(tipo: char)
    | ReservePiece(tipo: char)
    | UsePiece
    | SwapFront
    | SwapBatch
    | NoAction

  predicate Drawable(c: Command) {
    (c.PlayPiece? || c.ReservePiece?) ==> IsTipo(c.tipo)
  }

  function Step(s: State, c: Command): (r: State)
    requires Valid(s) && Drawable(c)
    ensures Valid(r)
  {
    match c
    case PlayPiece(t) => Play(s, t)
    case ReservePiece(t) => Reserve(s, t)
    case UsePiece => UseReserved(s)
    case SwapFront => SwapTop(s)
    case SwapBatch => SwapThree(s)
    case NoAction => s
  }

  function Run(s: State, cs: seq<Command>): (r: State)
    requires Valid(s) && forall i :: 0 <= i < |cs| ==> Drawable(cs[i])
    ensures Valid(r)
    decreases |cs|
  {
    if cs == [] then s else Run(Step(s, cs[0]), cs[1..])
  }

  /** Playing drops the front piece and mints a new one: identifiers stay
      unique. */
  lemma PlayKeepsIdsUnique(s: State, tipo: char)
    requires Valid(s) && IsTipo(tipo) && IdsUnique(s)
    ensures IdsUnique(Play(s, tipo)) && Play(s, tipo).contador >= s.contador
  {
    if !Q.IsEmpty(s.fila) {
      var m := AllPieces(s);
      var front := Q.Contents(s.fila)[0];
      UniqueAfterRemoval(m, m - multiset{front}, s.contador);
      UniqueAfterMint(m - multiset{front}, s.contador, tipo);
    }
  }

  /** Reserving moves a piece between containers and mints a new one:
      identifiers stay unique. */
  lemma ReserveKeepsIdsUnique(s: State, tipo: char)
    requires Valid(s) && IsTipo(tipo) && IdsUnique(s)
    ensures IdsUnique(Reserve(s, tipo)) && Reserve(s, tipo).contador >= s.contador
  {
    if !Q.IsEmpty(s.fila) && !S.IsFull(s.pilha) {
      UniqueAfterMint(AllPieces(s), s.contador, tipo);
    }
  }

  /** Using a reserved piece only drops one: identifiers stay unique. */
  lemma UseKeepsIdsUnique(s: State)
    requires Valid(s) && IdsUnique(s)
    ensures IdsUnique(UseReserved(s))
  {
    if !S.IsEmpty(s.pilha) {
      var m := AllPieces(s);
      var c := S.Contents(s.pilha);
      UniqueAfterRemoval(m, m - multiset{c[|c| - 1]}, s.contador);
    }
  }

  /** Every action keeps piece identities unique: no piece is duplicated or
      lost by a swap, and a refill always brings an identifier never used
      before. */
  lemma StepKeepsIdsUnique(s: State, c: Command)
    requires Valid(s) && Drawable(c) && IdsUnique(s)
    ensures IdsUnique(Step(s, c))
    ensures Step(s, c).contador >= s.contador
  {
    match c
    case PlayPiece(t) => PlayKeepsIdsUnique(s, t);
    case ReservePiece(t) => ReserveKeepsIdsUnique(s, t);
    case UsePiece => UseKeepsIdsUnique(s);
    case SwapFront =>
    case SwapBatch =>
    case NoAction =>
  }

  /** Whatever the sequence of actions, both containers stay within their
      capacities with indices in range, and every piece held carries an
      identifier no other held piece carries. */
  lemma {:induction false} RunKeepsInvariants(s: State, cs: seq<Command>)
    requires Valid(s) && IdsUnique(s)
    requires forall i :: 0 <= i < |cs| ==> Drawable(cs[i])
    ensures IdsUnique(Run(s, cs))
    ensures 0 <= Run(s, cs).fila.qtd <= Q.Capacity && 0 <= Run(s, cs).fila.frente < Q.Capacity
    ensures -1 <= Run(s, cs).pilha.topo < S.Capacity
    decreases |cs|
  {
    if cs != [] {
      StepKeepsIdsUnique(s, cs[0]);
      RunKeepsInvariants(Step(s, cs[0]), cs[1..]);
    }
  }
}
