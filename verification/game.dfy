/**
  The state the program's main routine holds: one queue, one reserve stack
  and the identifier counter of the piece generator (a process-wide
  variable in the program, an explicit field here).
 */
module Game {
  import opened Pieces
  import Q = CircularQueue
  import S = BoundedStack

  datatype State = State(fila: Q.Fila, pilha: S.Pilha, contador: nat)

  ghost predicate Valid(s: State) {
    Q.Valid(s.fila) && S.Valid(s.pilha)
  }

  /** Every piece the game currently holds, in either container. */
  ghost function AllPieces(s: State): multiset<Peca>
    requires Valid(s)
  {
    multiset(Q.Contents(s.fila)) + multiset(S.Contents(s.pilha))
  }

  /** No piece is held twice, no two held pieces share an identifier, and
      every identifier was minted before (it is below `bound`). */
  ghost predicate UniqueIdsBelow(m: multiset<Peca>, bound: int) {
    && (forall p :: p in m ==> 0 <= p.id < bound && m[p] == 1)
    && (forall p, q :: p in m && q in m && p.id == q.id ==> p == q)
  }

  ghost predicate IdsUnique(s: State)
    requires Valid(s)
  {
    UniqueIdsBelow(AllPieces(s), s.contador)
  }

  /** Dropping pieces keeps identifiers unique. */
  lemma UniqueAfterRemoval(m: multiset<Peca>, m': multiset<Peca>, bound: int)
    requires UniqueIdsBelow(m, bound) && m' <= m
    ensures UniqueIdsBelow(m', bound)
  {
    forall p | p in m'
      ensures m'[p] == 1
    {
      assert m'[p] <= m[p];
    }
  }

  /** Adding a piece minted from the counter keeps identifiers unique, with
      the counter advanced past it. */
  lemma UniqueAfterMint(m: multiset<Peca>, bound: nat, tipo: char)
    requires UniqueIdsBelow(m, bound) && IsTipo(tipo)
    ensures UniqueIdsBelow(m + multiset{Generate(bound, tipo).peca}, Generate(bound, tipo).contador)
  {
    var x := Generate(bound, tipo).peca;
    assert x !in m;
  }

  /** Pieces carrying the requested letters with identifiers 0, 1, … are
      what the generator produces from a fresh counter, so their identifiers
      increase. */
  lemma FirstMinted(ps: seq<Peca>, tipos: seq<char>)
    requires AllTipos(tipos) && |ps| == |tipos|
    requires forall k :: 0 <= k < |ps| ==> ps[k] == Peca(tipos[k], k)
    ensures ps == GenerateAll(0, tipos).pecas
    ensures IdsIncreasing(ps)
  {
    NumberedAreGenerated(ps, 0, tipos);
    GenerateAllFresh(0, tipos);
  }

  /** One generated piece enqueued into a queue with room: it joins the
      queue's rear carrying the current counter as identifier, the counter
      moves past it, the stack is untouched, and identifiers stay unique. */
  function MintIntoQueue(s: State, tipo: char): (r: State)
    requires Valid(s) && !Q.IsFull(s.fila) && IsTipo(tipo)
    ensures Valid(r) && r.pilha == s.pilha && r.contador == s.contador + 1
    ensures Q.Contents(r.fila) == Q.Contents(s.fila) + [Peca(tipo, s.contador)]
    ensures IdsUnique(s) ==> IdsUnique(r)
  {
    var nova := Generate(s.contador, tipo);
    var r := State(Q.Enqueue(s.fila, nova.peca), s.pilha, nova.contador);
    assert AllPieces(r) == AllPieces(s) + multiset{nova.peca};
    assert IdsUnique(s) ==> IdsUnique(r) by {
      if IdsUnique(s) {
        UniqueAfterMint(AllPieces(s), s.contador, tipo);
      }
    }
    r
  }

  /** The start of the main routine: both containers initialised, then
      `TAM_FILA` generated pieces enqueued one by one. The C arrays start
      uninitialised, modelled as arbitrary `filaStorage` and `pilhaStorage`;
      `tipos` are the letters the random generator draws. The result is a
      full queue holding identifiers 0 to 4 in order, exactly the pieces
      five successive generator calls produce, an empty stack, and a
      counter that has moved past every identifier in use. */
  method InitialFill(filaStorage: seq<Peca>, pilhaStorage: seq<Peca>, tipos: seq<char>) returns (s: State)
    requires |filaStorage| == Q.Capacity && |pilhaStorage| == S.Capacity
    requires |tipos| == Q.Capacity && AllTipos(tipos)
    ensures Valid(s) && Q.IsFull(s.fila) && S.IsEmpty(s.pilha)
    ensures forall i :: 0 <= i < Q.Capacity ==> Q.Contents(s.fila)[i] == Peca(tipos[i], i)
    ensures Q.Contents(s.fila) == GenerateAll(0, tipos).pecas
    ensures IdsIncreasing(Q.Contents(s.fila))
    ensures s.contador == Q.Capacity
    ensures IdsUnique(s)
  {
    s := State(Q.Init(filaStorage), S.Init(pilhaStorage), 0);
    var i := 0;
    while i < Q.Capacity
      invariant 0 <= i <= Q.Capacity
      invariant Valid(s) && S.IsEmpty(s.pilha) && s.contador == i
      invariant |Q.Contents(s.fila)| == i
      invariant forall k :: 0 <= k < i ==> Q.Contents(s.fila)[k] == Peca(tipos[k], k)
      invariant IdsUnique(s)
    {
      s := MintIntoQueue(s, tipos[i]);
      i := i + 1;
    }
    FirstMinted(Q.Contents(s.fila), tipos);
  }
}
