/**
  Pieces of the game and the generator that mints them.

  A piece carries a type letter and an identifier. Identifiers come from a
  counter that every generation returns and then advances by one, so no
  identifier is ever handed out twice. The random choice of the type letter
  is not modelled: the caller passes the letter, which must be one of the
  four tetromino letters the generator draws from.
 */
module Pieces {

  /** A piece: its type letter and its identifier (a C `int`, so that the
      sentinel piece can carry -1). */
  datatype Peca = Peca(nome: char, id: int)

  /** The four letters the random generator draws from. */
  predicate IsTipo(c: char) {
    c == 'I' || c == 'O' || c == 'T' || c == 'L'
  }

  /** A freshly minted piece together with the advanced counter. */
  datatype Minted = Minted(peca: Peca, contador: nat)

  /** One call of the generator: the piece gets the current counter value as
      its identifier, and the counter moves on. The new identifier differs
      from every identifier minted before (all of them are below `contador`)
      and from every identifier minted after (all of them are at least the
      new counter). */
  function Generate(contador: nat, tipo: char): (r: Minted)
    requires IsTipo(tipo)
    ensures IsTipo(r.peca.nome) && r.peca.nome == tipo
    ensures contador <= r.peca.id < r.contador
    ensures r.contador - contador == 1
  {
    Minted(Peca(tipo, contador), contador + 1)
  }

  /** Several pieces minted in a row, and the counter after them. */
  datatype MintedMany = MintedMany(pecas: seq<Peca>, contador: nat)

  predicate AllTipos(tipos: seq<char>) {
    forall i :: 0 <= i < |tipos| ==> IsTipo(tipos[i])
  }

  /** Successive calls of the generator, one per requested type letter. */
  function GenerateAll(contador: nat, tipos: seq<char>): (r: MintedMany)
    requires AllTipos(tipos)
    ensures |r.pecas| == |tipos|
    ensures r.contador == contador + |tipos|
    ensures forall i :: 0 <= i < |tipos| ==> r.pecas[i] == Peca(tipos[i], contador + i)
    decreases |tipos|
  {
    if tipos == [] then MintedMany([], contador)
    else
      var first := Generate(contador, tipos[0]);
      var rest := GenerateAll(first.contador, tipos[1..]);
      MintedMany([first.peca] + rest.pecas, rest.contador)
  }

  /** The identifiers along a sequence of pieces strictly increase. */
  ghost predicate IdsIncreasing(ps: seq<Peca>) {
    forall i, j :: 0 <= i < j < |ps| ==> ps[i].id < ps[j].id
  }

  /** Every identifier of a sequence of pieces lies in `[lo, hi)`. */
  ghost predicate IdsWithin(ps: seq<Peca>, lo: int, hi: int) {
    forall i :: 0 <= i < |ps| ==> lo <= ps[i].id < hi
  }

  /** Pieces minted in a row carry strictly increasing identifiers, all of
      them at least the starting counter and below the final one: none of
      them repeats an identifier minted earlier, and none will be repeated
      later. */
  lemma GenerateAllFresh(contador: nat, tipos: seq<char>)
    requires AllTipos(tipos)
    ensures IdsIncreasing(GenerateAll(contador, tipos).pecas)
    ensures IdsWithin(GenerateAll(contador, tipos).pecas, contador, GenerateAll(contador, tipos).contador)
  {
  }

  /** Pieces carrying the requested letters with identifiers numbered from
      `contador` are exactly what successive generator calls produce. */
  lemma NumberedAreGenerated(ps: seq<Peca>, contador: nat, tipos: seq<char>)
    requires AllTipos(tipos) && |ps| == |tipos|
    requires forall k :: 0 <= k < |ps| ==> ps[k] == Peca(tipos[k], contador + k)
    ensures ps == GenerateAll(contador, tipos).pecas
  {
  }
}
