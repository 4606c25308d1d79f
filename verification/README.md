# Tetris piece supply: circular queue and reserve stack

This project models, in Dafny, the piece-supply core of a small Tetris
exercise written in C in three successive versions (`TetrisNovato.c`,
`TetrisAventureiro.c`, `TetrisMestre.c`). The core is:

- a fixed-capacity circular queue of upcoming pieces (`TAM_FILA` = 5): a ring
  of slots with a front index `frente`, a rear index `tras` and a count `qtd`;
- a fixed-capacity reserve stack (`TAM_PILHA` = 3) with a top index `topo`;
- a piece generator that hands out identifiers from a counter;
- the actions that couple the two containers: play with refill, reserve,
  use a reserved piece, swap the queue front with the stack top, and swap
  three pieces pairwise.

Every container is an immutable record (the fixed-length slot array as a
`seq<Peca>` plus its indices), every operation a pure function from old
state to new state. Each container has a ghost abstraction function to its
logical sequence: for the queue, slot `(frente + i) % 5` for `i < qtd`; for
the stack, slots `0..topo`. Contracts are stated against those sequences.

Modules, one per file:

- `Pieces` (pieces.dfy): the piece record, the generator, identifier order.
- `CircularQueue` (queue.dfy): the ring buffer shared by all three versions,
  its invariant, enqueue/dequeue, traversal, FIFO.
- `BoundedStack` (stack.dfy): the stack shared by the two later versions,
  push/pop/top, traversal, LIFO.
- `Game` (game.dfy): the state `main` holds (queue, stack, identifier
  counter) and the initial fill of the queue.
- `Mestre` (mestre.dfy): `jogarPeca`, `reservarPeca`, `usarPecaReservada`,
  `trocarTopo`, `trocarMultiplas` and the menu dispatch.
- `Aventureiro` (aventureiro.dfy): the sentinel `{'?', -1}`, the play,
  reserve and use logic written inline in `main`'s switch, its state
  display, and proofs that it agrees with the `Mestre` actions.
- `Novato` (novato.dfy): the queue-only version, with the identifier passed
  to `gerarPeca`, a dequeue that hands nothing back, and the `idAtual++`
  loop.

Where the three versions share a function line for line (`enfileirar`,
`filaCheia`, `filaVazia`, `inicializarFila`, `empilhar`, the stack
queries, and the queue loop of `exibirEstado` in `TetrisMestre.c` and of
`exibirFila` in `TetrisNovato.c`), one member models all of them; the table
cites one version.
The dequeue and pop of the two later versions differ only in the sentinel
they hand back on an empty container (`{'-', -1}` in `TetrisMestre.c`,
`{'?', -1}` in `TetrisAventureiro.c`), so the shared members take the
sentinel as a parameter and each version fixes it.

The refill after a play or a reserve is guarded by `!filaCheia` in
`TetrisMestre.c` and unconditional in `TetrisAventureiro.c`. The two are
proved to be the same action: a successful dequeue always leaves room.

In `TetrisNovato.c` option 2 evaluates `gerarPeca(idAtual++)` before the
enqueue checks for a full queue, so an insertion into a full queue drops
the piece but still spends an identifier. Identifiers stay distinct and
increasing but need not be contiguous; the model keeps this behaviour.

The code signals a refused action only by printing a message and leaving
the state as it was; an empty dequeue or pop hands back a sentinel piece;
the actions return nothing. The model does the same, without the message.

## Model

| member | source | states |
|---|---|---|
| Pieces.Generate | TetrisMestre.c:35-40 | The new piece has the requested letter and an identifier at least the old counter and below the new one, so it repeats no earlier identifier and no later one; the counter moves on by exactly one. |
| Pieces.GenerateAll | TetrisAventureiro.c:18-24 | Successive generator calls: the i-th piece carries the i-th letter and identifier `contador + i`, and the counter ends `|tipos|` further on. |
| Pieces.GenerateAllFresh | TetrisAventureiro.c:15-24 | Pieces minted in a row have strictly increasing identifiers, all at least the starting counter and below the final one. |
| CircularQueue.Init | TetrisNovato.c:24-28 | Initialisation yields a queue satisfying the ring invariant, with empty logical contents, `frente = 0`, `tras = -1`, `qtd = 0`. |
| CircularQueue.IsFull | TetrisMestre.c:49-51 | `filaCheia` holds exactly when the logical contents have `TAM_FILA` elements. |
| CircularQueue.IsEmpty | TetrisMestre.c:53-55 | `filaVazia` holds exactly when the logical contents are empty. |
| CircularQueue.WriteAtRear | TetrisMestre.c:59-61 | Writing a piece one slot past the rear of a queue with room, with the count raised by one, keeps the ring invariant and appends the piece to the logical contents. |
| CircularQueue.Enqueue | TetrisMestre.c:57-62 | The ring invariant is preserved; on a full queue nothing changes; otherwise `tras` advances by one slot modulo `TAM_FILA`, `qtd` grows by one, the logical contents become the old contents followed by `p`, and the front index stays put. |
| CircularQueue.AdvanceFront | TetrisMestre.c:68-69 | Advancing `frente` by one slot modulo `TAM_FILA` with the count lowered by one keeps the ring invariant and removes exactly the first logical element. |
| CircularQueue.Dequeue | TetrisMestre.c:64-71 | The ring invariant is preserved; on an empty queue the sentinel comes back and nothing changes; otherwise the logical front comes back, the contents become the old tail, and `frente` advances by one modulo `TAM_FILA`. |
| CircularQueue.RoomAfterDequeue | TetrisMestre.c:128-133 | After a dequeue from a non-empty queue the queue is never full, so the refill guard `!filaCheia` always passes. |
| CircularQueue.ListQueue | TetrisMestre.c:108-112 | The display loop visiting slot `(frente + i) % TAM_FILA` for `i < qtd` lists exactly the logical contents, front to back. |
| CircularQueue.EnqueueAllAppends | TetrisNovato.c:50-58 | Enqueuing several pieces into a queue with room for all of them appends them, in order, to the logical contents. |
| CircularQueue.DequeueNTakesPrefix | TetrisNovato.c:61-70 | `n` dequeues from a queue holding at least `n` pieces remove its first `n` logical elements in order and leave the rest. |
| CircularQueue.Fifo | TetrisNovato.c:50-70 | Up to five enqueues into an empty queue followed by as many dequeues remove the pieces in insertion order and leave the queue empty. |
| BoundedStack.Init | TetrisMestre.c:74-76 | Initialisation yields a valid stack with empty contents. |
| BoundedStack.IsEmpty | TetrisMestre.c:78-80 | `pilhaVazia` holds exactly when the contents are empty. |
| BoundedStack.IsFull | TetrisMestre.c:82-84 | `pilhaCheia` holds exactly when the contents have `TAM_PILHA` elements. |
| BoundedStack.Push | TetrisMestre.c:86-89 | `topo` stays in `[-1, 2]`; on a full stack nothing changes; otherwise the contents become the old contents with the new piece on top. |
| BoundedStack.Pop | TetrisMestre.c:91-95 | `topo` stays in `[-1, 2]`; on an empty stack the sentinel comes back and nothing changes; otherwise the top comes back and the contents lose their last element. |
| BoundedStack.Top | TetrisMestre.c:97-101 | The sentinel on an empty stack, otherwise the top element, which is the piece a pop would hand back; the query yields no new stack. |
| BoundedStack.PushThenPop | TetrisMestre.c:86-95 | A push onto a stack with room followed by a pop hands back the pushed piece and restores the contents and `topo`. |
| BoundedStack.ListStack | TetrisMestre.c:115-117 | The display loop from `topo` down to 0 lists the contents top to bottom. |
| BoundedStack.PushAllAppends | TetrisAventureiro.c:82-85 | Pushing several pieces onto a stack with room for all of them appends them to the contents in order. |
| BoundedStack.PopNTakesTop | TetrisAventureiro.c:87-92 | `n` pops hand back the top `n` elements, topmost first, and leave the ones below. |
| BoundedStack.Lifo | TetrisAventureiro.c:82-92 | Up to three pushes onto an empty stack followed by as many pops hand the pieces back in reverse order and leave the stack empty. |
| Game.InitialFill | TetrisAventureiro.c:126-132 | Initialising both containers and enqueuing five generated pieces yields a full queue holding identifiers 0 to 4 in order, an empty stack, a counter of 5, and unique identifiers. |
| Game.MintIntoQueue | TetrisAventureiro.c:131 | One `enfileirar(&fila, gerarPeca())` into a queue with room appends a piece carrying the current counter, advances the counter by one, leaves the stack alone and keeps held identifiers unique. |
| Mestre.Dequeue | TetrisMestre.c:64-71 | On an empty queue `{'-', -1}` comes back and nothing changes; otherwise the front comes back and the contents become the tail. |
| Mestre.Pop | TetrisMestre.c:91-95 | On an empty stack `{'-', -1}` comes back and nothing changes; otherwise the top comes back and leaves the contents. |
| Mestre.Top | TetrisMestre.c:97-101 | `{'-', -1}` on an empty stack, otherwise the top element, which is the piece a pop would hand back. |
| Mestre.Play | TetrisMestre.c:123-134 | On an empty queue nothing changes; otherwise the front leaves and exactly one freshly minted piece joins at the rear, so the length is kept, the stack is untouched and the pieces held lose the front and gain the new piece. |
| Mestre.Reserve | TetrisMestre.c:136-152 | Nothing changes if the queue is empty or the stack full; otherwise the old queue front becomes the new stack top and the queue is refilled at its rear with one fresh piece. |
| Mestre.UseReserved | TetrisMestre.c:154-161 | Nothing changes on an empty stack; otherwise the top is consumed; the queue and the counter are never touched. |
| Mestre.Exchange | TetrisMestre.c:180-185 | One loop step: logical queue position `i` and stack index `j` trade values; indices, counts and every other slot are unchanged, and the pieces held are the same multiset. |
| Mestre.SwapTop | TetrisMestre.c:163-173 | Nothing changes if either container is empty; otherwise only the queue front and stack top trade values; `frente`, `tras`, `qtd`, `topo` are untouched and the multiset of pieces is preserved. |
| Mestre.SwapPairsFrom | TetrisMestre.c:180-185 | The loop from iteration `i` on trades logical queue position `k` with stack index `topo - k` for each remaining `k < 3`, leaves all other positions alone, and preserves indices, counts and the multiset of pieces. |
| Mestre.SwapThree | TetrisMestre.c:175-187 | Nothing changes unless `qtd >= 3` and `topo >= 2`; otherwise the first three queue pieces become the stack pieces at `topo`, `topo-1`, `topo-2`, the top three stack slots read bottom-up become queue positions 2, 1, 0, everything else in both containers is unchanged, counts are unchanged and the multiset of pieces is preserved. |
| Mestre.Step | TetrisMestre.c:216-224 | Every menu action leaves both containers valid. |
| Mestre.Run | TetrisMestre.c:202-225 | Any sequence of menu actions, one per iteration of the main loop, leaves both containers valid. |
| Mestre.PlayKeepsIdsUnique | TetrisMestre.c:123-134 | A play keeps held identifiers unique and below the counter: the front is dropped and the refill carries an identifier never handed out before. |
| Mestre.ReserveKeepsIdsUnique | TetrisMestre.c:136-152 | A reserve keeps held identifiers unique: the moved piece is still held once, and the refill is fresh. |
| Mestre.UseKeepsIdsUnique | TetrisMestre.c:154-161 | Using the reserved top only drops a piece, so held identifiers stay unique. |
| Mestre.StepKeepsIdsUnique | TetrisMestre.c:216-224 | Every menu action keeps every held piece's identifier unique and below the counter, and never moves the counter back. |
| Mestre.RunKeepsInvariants | TetrisMestre.c:202-225 | After any sequence of menu actions, `qtd` is in `[0, 5]`, `frente` in `[0, 5)`, `topo` in `[-1, 2]`, and held identifiers are unique. |
| Aventureiro.Dequeue | TetrisAventureiro.c:55-62 | On an empty queue `{'?', -1}` comes back and nothing changes; otherwise the front comes back and the contents become the tail. |
| Aventureiro.Pop | TetrisAventureiro.c:87-92 | On an empty stack `{'?', -1}` comes back and nothing changes; otherwise the top comes back and leaves the contents. |
| Aventureiro.Play | TetrisAventureiro.c:146-156 | On an empty queue nothing changes; otherwise the front leaves and one fresh piece is enqueued unconditionally, so the length is preserved. |
| Aventureiro.Reserve | TetrisAventureiro.c:158-171 | Refused, with nothing changed, when the queue is empty or the stack full; otherwise the front moves to the stack top and the queue is refilled. |
| Aventureiro.UseReserved | TetrisAventureiro.c:173-182 | Pops the top only when the stack is non-empty; the queue and counter are never touched. |
| Aventureiro.PlayAgreesWithMestre | TetrisAventureiro.c:150-152 | The unconditional refill of option 1 produces the same state as the guarded refill of `jogarPeca`, for every valid state. |
| Aventureiro.ReserveAgreesWithMestre | TetrisAventureiro.c:164-167 | Option 2 produces the same state as `reservarPeca`, for every valid state. |
| Aventureiro.UseAgreesWithMestre | TetrisAventureiro.c:177-179 | Option 3 produces the same state as `usarPecaReservada`, for every valid state. |
| Aventureiro.ListState | TetrisAventureiro.c:95-119 | The display walks `qtd` slots from `frente` stepping around the ring, which is the logical queue order, and lists the stack from `topo` down to 0. |
| Aventureiro.Step | TetrisAventureiro.c:144-190 | Every case of the menu switch (1 to 3, and 0 or an invalid option) leaves both containers valid. |
| Aventureiro.Run | TetrisAventureiro.c:135-192 | Any sequence of menu actions, one per iteration of the main loop, leaves both containers valid. |
| Aventureiro.StepKeepsOrder | TetrisAventureiro.c:145-182 | Each menu action keeps the identifiers from stack bottom through queue rear strictly increasing and below the counter. |
| Aventureiro.RunKeepsOrder | TetrisAventureiro.c:134-192 | After any sequence of menu actions that order still holds; in particular the queue lists its pieces in minting order. |
| Novato.GeneratePiece | TetrisNovato.c:41-47 | The piece carries the identifier passed in and one of the four letters. |
| Novato.Dequeue | TetrisNovato.c:61-70 | On an empty queue nothing changes; otherwise `frente` advances modulo 5, `qtd` drops by one, and the logical front is removed. |
| Novato.DequeueAgrees | TetrisNovato.c:66-69 | This dequeue leaves the same queue as the dequeue that hands the front back, whatever its sentinel. |
| Novato.Step | TetrisNovato.c:113-125 | Every menu action keeps the ring invariant. |
| Novato.Run | TetrisNovato.c:103-126 | Any sequence of menu actions, one per iteration of the main loop, keeps the ring invariant. |
| Novato.InsertSpendsId | TetrisNovato.c:117-119 | Option 2 always advances `idAtual`; into a full queue it drops the piece, otherwise it appends a piece carrying the old counter. |
| Novato.Start | TetrisNovato.c:92-101 | Initialisation and five insertions with `idAtual++` yield a full queue holding identifiers 0 to 4 in order and a counter of 5. |
| Novato.RunKeepsBounds | TetrisNovato.c:31-38 | After any sequence of menu actions `qtd` is in `[0, 5]`, `frente` in `[0, 5)`, and the ring invariant holds. |
| Novato.StepKeepsOrder | TetrisNovato.c:113-125 | Each menu action keeps the queue's identifiers strictly increasing front to back and below `idAtual`, and never moves `idAtual` back. |
| Novato.RunKeepsOrder | TetrisNovato.c:95-126 | After any sequence of menu actions the queue's identifiers are distinct, increasing front to back, and below `idAtual`. |

## Left out

- The menu loops' input and output (`scanf`, `printf`, the messages printed on a refused action, the text layout of the state display, the "(vazia)" marker): the model keeps only the order in which the display visits slots.
- `rand()` and `srand(time(NULL))`: the letter of each new piece is a parameter, constrained to the four letters the generator draws from.
- The global `contadorID` and the local `idAtual` as C `int`s: they are an explicit unbounded counter in the state; overflow after 2^31 pieces is not modelled.
- The uninitialised contents of the C arrays: they are an arbitrary `storage` argument to the initialisers.
- Concrete runs, such as a play from identifiers 0 to 4, a reserve, a refused reserve onto a full stack or a batch swap, are not written out as separate proofs; each is an instance of the contracts of `Mestre.Play`, `Mestre.Reserve` and `Mestre.SwapThree`.
