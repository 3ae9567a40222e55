# Ledger and consensus core of a Java blockchain node

This project models, in Dafny, the sequential ledger and consensus logic of a small account-based
blockchain node written in Java. It covers:

- **Transactions** (`commons/estructuras/Transaccion.java`, module `Transacciones`). A transaction's
  content is the amount text, then sender, recipient and the 8-byte big-endian timestamp. Its hash is
  SHA-256 of that content. Validity means the stored hash is the recomputed one and the signature
  verifies. Equality and `hashCode` look only at the stored hash.
- **The older transaction class** (`src/estructuras/Transaccion.java`, module
  `TransaccionesLegado`). It is a mutable class whose content also includes the signature. Its
  setters never refresh the stored hash.
- **Blocks** (`Bloque.java`, module `Bloques`):
  - the header hash over previous hash, Merkle root, nonce and timestamp;
  - the Merkle root as a FIFO-queue reduction;
  - the leading-zero-byte count;
  - the structural check;
  - equality by hash.
- **The balance ledger** (`RegistroSaldos.java`, module `Saldos`). It is a table from the Base64
  text of a public key to a balance. It supports crediting and the settlement of a coinbase or a
  transfer.
- **The transaction pool** (`PoolTransacciones.java`, module `Pool`). It is a hash-keyed set with
  add-if-valid, remove and contains-all.
- **The chain** (`CadenaDeBloques.java`, module `Cadena`). It is an append-only list of blocks with
  tip, size and emptiness queries, plus identity-based equality.
- **Block acceptance** (`ServiceBloques.java`, module `ServicioBloques`). It runs the five-step
  short-circuit validation: structure, linkage, size, pool membership, difficulty. An accepted block
  is appended and its transactions are removed from the pool.
- **Mining** (`ServiceMinado.java`, module `ServicioMinado`). The miner builds a temporary ledger,
  runs the selection pass, prepends the coinbase and searches for a nonce.

`Base` holds what these share:
- bytes;
- an `Option` type;
- Java's fixed-width arithmetic: `long` and `int` wrap-around, `Longs.toByteArray` with its proved
  round trip, and `Arrays.hashCode`;
- the node's configuration as a value (`Configuracion`);
- the library primitives as fields of a `Cripto` value: SHA-256 (FIPS 180-4), the DSA signature
  check, the amount-to-text conversion, and Base64 (section 4 of RFC 4648).

Every property is stated for all choices of these primitives. Where a property needs Base64 to be
injective or SHA-256 to be collision-free, it says so in its `requires`.

Value-like entities are datatypes. These are the commons transaction (it is never changed once the
node holds it), the block's header bytes and the results of settlement and mining. Entities whose
fields the code updates in place are classes: the block, the legacy transaction, the ledger, the
pool, the chain and the two services. Loops in the source are `while`/`for` loops. These are
proved against a recursive specification function:
- the Merkle queue;
- the zero-byte scan;
- the removal of a block's transactions from the pool;
- the miner's seeding, selection and nonce loops.

The chain comparison loop is proved against plain equality of the two block sequences. The pool's
iterator loop is proved against membership in the pool's set.

In these places the code does something a reader might not expect, and the model follows the code:

- **Transaction validity.** `esValida` checks only the hash and the signature. It does not check
  the recipient, the sign of the amount or the coinbase reward.
- **Block acceptance.** The size limit counts the coinbase, and the pool rule demands every listed
  transaction, the coinbase included, be pooled. `añadirBloque` settles nothing into any ledger.
- **Settlement** is not atomic. A covered transfer without a recipient throws after the sender
  has already been debited. Negative amounts pass the funds check.
- **Mining.** The selection pass never adds a pool transaction to the block, so every mined block
  holds only the coinbase. The coinbase never passes `esValida`, so the pool never admits it. As a
  result, block acceptance refuses every mined block unless some pooled transaction happens to
  share the coinbase's hash (`ServicioMinado.BloqueMinadoRechazado`).

The Java files use four members they do not declare. The model assumes each as stated:
- `Transaccion.getEsCoinbase` (`RegistroSaldos.java:53`) is the datatype field `esCoinbase`;
- `CadenaDeBloques.getSaldos` (`ServiceMinado.java:107`) is a ledger the chain owns, the constant
  field `Cadena.CadenaDeBloques.saldos`;
- the one-argument `Transaccion` constructor (`ServiceMinado.java:137`) is
  `ServicioMinado.TransaccionCoinbase`. It builds a coinbase paying its argument the configured
  reward (`getCantidadCoinbase`, the field `cantidadCoinbase` of `Base.Configuracion`), with no
  sender, no signature, timestamp 0 and an empty hash;
- `PoolTransacciones.getPool` (`ServiceMinado.java:108`) is the pool's set. Its iterator is
  `Pool.PoolTransacciones.Elementos`, which yields each held transaction once, in an order left open.

## Model

| member | source | states |
|---|---|---|
| Base.LongABytesIda | src/main/java/com/lfcounago/javablockchain/commons/estructuras/Transaccion.java:106 | `Longs.toByteArray` of a `long` read back as a `long` gives the same value |
| Base.LongABytes | src/main/java/com/lfcounago/javablockchain/commons/estructuras/Transaccion.java:106 | `Longs.toByteArray` gives exactly 8 bytes; `Base.LongABytesIda` reads them back as the same `long` |
| Base.LongABytesInyectiva | src/main/java/com/lfcounago/javablockchain/commons/estructuras/Bloque.java:104-105 | two `long`s have the same 8 bytes exactly when they are equal |
| Base.Int64 | src/main/java/com/lfcounago/javablockchain/nodo/services/ServiceMinado.java:151 | a `long` result is in the 64-bit range and congruent to the exact result modulo 2^64 |
| Base.Int64Sucesor | src/main/java/com/lfcounago/javablockchain/nodo/services/ServiceMinado.java:151 | incrementing a wrapped `long` is the wrapped successor, so the k-th `nonce++` from 0 yields k reduced to 64 bits |
| Base.HashCodeArrays | src/main/java/com/lfcounago/javablockchain/commons/estructuras/Transaccion.java:172-174 | `Arrays.hashCode` of a byte array (0 for null) is a Java `int` |
| Transacciones.NuevaTransaccion | src/main/java/com/lfcounago/javablockchain/commons/estructuras/Transaccion.java:39-46 | the 4-argument constructor stores its arguments and the clock, is not a coinbase, and its stored hash is the recomputed hash |
| Transacciones.ContenidoTransaccion | src/main/java/com/lfcounago/javablockchain/commons/estructuras/Transaccion.java:102-108 | the content is amount text, sender, recipient and timestamp; `Transacciones.ContenidoPorPartes` splits it back into those parts, the timestamp read back exactly |
| Transacciones.CalcularHashTransaccion | src/main/java/com/lfcounago/javablockchain/commons/estructuras/Transaccion.java:116-118 | the hash is SHA-256 of the content; `Transacciones.HashIgnoraFirma` shows it does not depend on signature, stored hash or coinbase flag |
| Transacciones.EsValida | src/main/java/com/lfcounago/javablockchain/commons/estructuras/Transaccion.java:126-145 | a valid transaction has a sender, a signature and a stored hash equal to the recomputed one; `Transacciones.NuevaTransaccionValida` and `Transacciones.HashAlteradoInvalida` give both directions |
| Transacciones.Equals | src/main/java/com/lfcounago/javablockchain/commons/estructuras/Transaccion.java:155-164 | two transactions are equal exactly when their stored hashes are; `Transacciones.FronteraAmbigua` exhibits two different transactions that are equal |
| Transacciones.HashCode | src/main/java/com/lfcounago/javablockchain/commons/estructuras/Transaccion.java:172-174 | `Arrays.hashCode` of the stored hash, a Java `int`; `Transacciones.EqualsHashCode` shows equal transactions share it |
| Transacciones.ContenidoPorPartes | src/main/java/com/lfcounago/javablockchain/commons/estructuras/Transaccion.java:102-108 | the content is amount text, sender bytes, recipient bytes (a null part adds none) and 8 bytes that decode to the timestamp, in that order |
| Transacciones.HashIgnoraFirma | src/main/java/com/lfcounago/javablockchain/commons/estructuras/Transaccion.java:116-118 | the recomputed hash does not depend on the signature, the stored hash or the coinbase flag |
| Transacciones.NuevaTransaccionValida | src/main/java/com/lfcounago/javablockchain/commons/estructuras/Transaccion.java:126-145 | a freshly built transaction is valid exactly when it has a sender and a signature and the signature verifies over its content |
| Transacciones.HashAlteradoInvalida | src/main/java/com/lfcounago/javablockchain/commons/estructuras/Transaccion.java:129-132 | any stored hash other than the recomputed one makes the transaction invalid |
| Transacciones.CantidadNoSeComprueba | src/main/java/com/lfcounago/javablockchain/commons/estructuras/Transaccion.java:126-145 | whatever the amount (negative included) and the recipient (absent included), a transaction whose signature verifies is valid |
| Transacciones.FronteraAmbigua | src/main/java/com/lfcounago/javablockchain/commons/estructuras/Transaccion.java:102-108 | moving a byte from recipient to sender leaves the content unchanged, so two different transactions are equal |
| Transacciones.EqualsHashCode | src/main/java/com/lfcounago/javablockchain/commons/estructuras/Transaccion.java:154-174 | equal transactions have equal hash codes |
| TransaccionesLegado.Transaccion.Vacia | src/estructuras/Transaccion.java:31-32 | the no-argument constructor leaves every field null or zero |
| TransaccionesLegado.Transaccion.constructor | src/estructuras/Transaccion.java:34-41 | the constructor stores its arguments and the clock, and its stored hash is the hash of its content |
| TransaccionesLegado.Transaccion.SetHash | src/estructuras/Transaccion.java:47-49 | sets the hash and no other field |
| TransaccionesLegado.Transaccion.SetEmisor | src/estructuras/Transaccion.java:55-57 | sets the sender and no other field, the stored hash included |
| TransaccionesLegado.Transaccion.SetDestinatario | src/estructuras/Transaccion.java:63-65 | sets the recipient and no other field, the stored hash included |
| TransaccionesLegado.Transaccion.SetCantidad | src/estructuras/Transaccion.java:71-73 | sets the amount and no other field, the stored hash included |
| TransaccionesLegado.Transaccion.SetFirma | src/estructuras/Transaccion.java:79-81 | sets the signature and no other field, the stored hash included |
| TransaccionesLegado.Transaccion.SetMarcaTemporal | src/estructuras/Transaccion.java:87-89 | sets the timestamp and no other field, the stored hash included |
| TransaccionesLegado.ContenidoDistingueFirma | src/estructuras/Transaccion.java:95-103 | with the other fields fixed, two signatures give the same content exactly when they contribute the same bytes |
| TransaccionesLegado.Contenido | src/estructuras/Transaccion.java:95-103 | the content is amount text, sender, recipient, signature and timestamp; `TransaccionesLegado.ContenidoDistingueFirma` shows the signature is part of it |
| TransaccionesLegado.Transaccion.Equals | src/estructuras/Transaccion.java:113-125 | the same object, or a non-null transaction with the same stored hash (both null included) |
| TransaccionesLegado.Transaccion.HashCode | src/estructuras/Transaccion.java:127-130 | `Arrays.hashCode` of the stored hash, 0 when it is null; `TransaccionesLegado.EqualsHashCode` shows equal transactions share it |
| TransaccionesLegado.FirmaNuevaDesincroniza | src/estructuras/Transaccion.java:109-111 | under a collision-free SHA-256, a different signature gives a different hash, so re-signing without refreshing the hash leaves a stale hash |
| TransaccionesLegado.EqualsHashCode | src/estructuras/Transaccion.java:113-130 | equal transactions have equal hash codes |
| Bloques.RaizMerkle | src/main/java/com/lfcounago/javablockchain/commons/estructuras/Bloque.java:115-125 | the root exists exactly when the list of transaction hashes is non-empty; `Bloques.RaizMerkleEsArbolBalanceado` shows it is the balanced tree's root for a power-of-two count |
| Bloques.RaizMerkleCasosPequenos | src/main/java/com/lfcounago/javablockchain/commons/estructuras/Bloque.java:116-124 | one hash is its own root, two are hashed together, and with three the third is paired with the hash of the first two |
| Bloques.RaizMerkleReduceParejas | src/main/java/com/lfcounago/javablockchain/commons/estructuras/Bloque.java:118-123 | draining an even-length prefix from the queue leaves its pairwise hashes behind the rest of the queue |
| Bloques.RaizMerkleEsArbolBalanceado | src/main/java/com/lfcounago/javablockchain/commons/estructuras/Bloque.java:116-124 | for a power-of-two count, the FIFO reduction equals the balanced binary Merkle tree |
| Bloques.CabeceraFijaNonceYTimestamp | src/main/java/com/lfcounago/javablockchain/commons/estructuras/Bloque.java:102-107 | the header starts with the previous hash and ends with 16 bytes that decode to nonce and timestamp |
| Bloques.Cabecera | src/main/java/com/lfcounago/javablockchain/commons/estructuras/Bloque.java:102-106 | the header bytes are previous hash, root, nonce and timestamp; `Bloques.CabeceraFijaNonceYTimestamp` recovers the last two |
| Bloques.HashCabecera | src/main/java/com/lfcounago/javablockchain/commons/estructuras/Bloque.java:102-107 | the block hash is SHA-256 of the header bytes; `ServicioBloques.CadenaCoherenteEnlaza` states that each block of a coherent chain carries it |
| Bloques.CerosIniciales | src/main/java/com/lfcounago/javablockchain/commons/estructuras/Bloque.java:132-139 | the count k is at most the length, bytes before k are zero, and byte k is not zero when k is below the length |
| Bloques.CerosInicialesUnico | src/main/java/com/lfcounago/javablockchain/commons/estructuras/Bloque.java:132-139 | those three facts determine the count |
| Bloques.Bloque.constructor | src/main/java/com/lfcounago/javablockchain/commons/estructuras/Bloque.java:39-46 | the 3-argument constructor stores its arguments and the clock, and the new block is structurally valid (root computed before hash) |
| Bloques.Bloque.CalcularRaizArbolMerkle | src/main/java/com/lfcounago/javablockchain/commons/estructuras/Bloque.java:115-125 | the queue loop yields the FIFO root; n hashes take n - 1 combinations |
| Bloques.Bloque.NumeroDeCerosHash | src/main/java/com/lfcounago/javablockchain/commons/estructuras/Bloque.java:132-139 | the scan returns the number of leading zero bytes |
| Bloques.Bloque.EsValido | src/main/java/com/lfcounago/javablockchain/commons/estructuras/Bloque.java:146-160 | true exactly when the stored root and the stored hash are the recomputed ones |
| Bloques.Bloque.CalcularHash | src/main/java/com/lfcounago/javablockchain/commons/estructuras/Bloque.java:102-107 | the header hash of the block's current fields; `Bloques.Bloque.EsValido` is true only when the stored hash equals it |
| Bloques.Bloque.Equals | src/main/java/com/lfcounago/javablockchain/commons/estructuras/Bloque.java:170-179 | the same object, or a non-null block with the same stored hash bytes |
| Bloques.Bloque.HashCode | src/main/java/com/lfcounago/javablockchain/commons/estructuras/Bloque.java:187-189 | `Arrays.hashCode` of the stored hash; `Bloques.EqualsHashCode` shows equal blocks share it |
| Bloques.EqualsHashCode | src/main/java/com/lfcounago/javablockchain/commons/estructuras/Bloque.java:169-189 | equal blocks have equal hash codes |
| Saldos.RegistroSaldos.constructor | src/main/java/com/lfcounago/javablockchain/commons/estructuras/RegistroSaldos.java:11-14 | a new ledger is empty |
| Saldos.RegistroSaldos.GetSaldoCuenta | src/main/java/com/lfcounago/javablockchain/commons/estructuras/RegistroSaldos.java:24-28 | the stored balance of the key's account, or 0 when the key has no entry |
| Saldos.RegistroSaldos.ExisteCuenta | src/main/java/com/lfcounago/javablockchain/commons/estructuras/RegistroSaldos.java:72-74 | whether the key has an entry, whatever its balance; `SetSaldoCuenta` and `AnadeSaldoACuenta` ensure it holds afterwards |
| Saldos.Liquidacion | src/main/java/com/lfcounago/javablockchain/commons/estructuras/RegistroSaldos.java:52-63 | the table and exception of `liquidarTransaccion`; the `Saldos.Liquidacion*` lemmas state its coinbase, covered, uncovered, partial and negative-amount cases |
| Saldos.RegistroSaldos.SetSaldoCuenta | src/main/java/com/lfcounago/javablockchain/commons/estructuras/RegistroSaldos.java:30-32 | overwrites one account, which then exists with that balance; every other entry is unchanged |
| Saldos.RegistroSaldos.AnadeSaldoACuenta | src/main/java/com/lfcounago/javablockchain/commons/estructuras/RegistroSaldos.java:41-43 | the account exists afterwards with its old balance (0 when absent) plus the delta; nothing else changes |
| Saldos.RegistroSaldos.LiquidarTransaccion | src/main/java/com/lfcounago/javablockchain/commons/estructuras/RegistroSaldos.java:52-63 | the new table and the exception thrown are those of settlement on the old table |
| Saldos.TotalAcreditar | src/main/java/com/lfcounago/javablockchain/commons/estructuras/RegistroSaldos.java:41-43 | crediting adds exactly the delta to the sum of all balances |
| Saldos.LiquidacionCoinbase | src/main/java/com/lfcounago/javablockchain/commons/estructuras/RegistroSaldos.java:53-54 | a coinbase credits its recipient by the amount, changes no other account and adds the amount to the total |
| Saldos.LiquidacionConserva | src/main/java/com/lfcounago/javablockchain/commons/estructuras/RegistroSaldos.java:56-58 | a covered transfer debits the sender (never below 0), credits the recipient, leaves others and the total unchanged |
| Saldos.LiquidacionSinFondos | src/main/java/com/lfcounago/javablockchain/commons/estructuras/RegistroSaldos.java:56-61 | an uncovered transfer throws and leaves the table unchanged |
| Saldos.LiquidacionParcial | src/main/java/com/lfcounago/javablockchain/commons/estructuras/RegistroSaldos.java:56-58 | a covered transfer without recipient throws after the debit, so the total drops by the amount |
| Saldos.LiquidacionSinNegativos | src/main/java/com/lfcounago/javablockchain/commons/estructuras/RegistroSaldos.java:52-63 | with non-negative balances and amount, settlement leaves no balance negative |
| Saldos.LiquidacionCantidadNegativa | src/main/java/com/lfcounago/javablockchain/commons/estructuras/RegistroSaldos.java:56-58 | a negative transfer between distinct keys succeeds and leaves its recipient below zero |
| Saldos.CuentasPorClave | src/main/java/com/lfcounago/javablockchain/commons/estructuras/RegistroSaldos.java:105-107 | with an injective Base64, writing one key's balance changes another key's balance exactly when the keys are equal |
| Pool.PoolTransacciones.constructor | src/main/java/com/lfcounago/javablockchain/commons/estructuras/PoolTransacciones.java:10-14 | a new pool is empty |
| Pool.Insertar | src/main/java/com/lfcounago/javablockchain/commons/estructuras/PoolTransacciones.java:29 | `HashSet.add` files the transaction under its hash and the held hashes grow by exactly that one; `Pool.InsertarEfecto` shows an existing entry is kept |
| Pool.InsertarTodas | src/main/java/com/lfcounago/javablockchain/commons/estructuras/PoolTransacciones.java:16-18 | `addAll` in list order; `Pool.InsertarTodasClaves`, `Pool.InsertarTodasConserva` and `Pool.InsertarTodasPrimera` give its keys and entries |
| Pool.PoolTransacciones.ContieneTransacciones | src/main/java/com/lfcounago/javablockchain/commons/estructuras/PoolTransacciones.java:52-54 | `containsAll`: every listed transaction has one with the same hash in the pool; `Pool.ContieneTrasEliminar` relates it to removal |
| Pool.PoolTransacciones.DesdeLista | src/main/java/com/lfcounago/javablockchain/commons/estructuras/PoolTransacciones.java:16-18 | the list constructor holds `addAll` of the list, with no validity check |
| Pool.PoolTransacciones.AnadirTransaccion | src/main/java/com/lfcounago/javablockchain/commons/estructuras/PoolTransacciones.java:27-33 | returns whether the transaction is valid, adds it exactly then, and otherwise leaves the pool unchanged |
| Pool.PoolTransacciones.EliminarTransaccion | src/main/java/com/lfcounago/javablockchain/commons/estructuras/PoolTransacciones.java:40-42 | removes the entry with that hash, if any, and keeps every other entry |
| Pool.PoolTransacciones.Elementos | src/main/java/com/lfcounago/javablockchain/nodo/services/ServiceMinado.java:108-110 | the iterator yields exactly the held transactions, each once |
| Pool.InsertarIndexado | src/main/java/com/lfcounago/javablockchain/commons/estructuras/PoolTransacciones.java:29 | adding keeps every entry filed under its own hash |
| Pool.InsertarTodasIndexado | src/main/java/com/lfcounago/javablockchain/commons/estructuras/PoolTransacciones.java:16-18 | `addAll` keeps every entry filed under its own hash |
| Pool.InsertarEfecto | src/main/java/com/lfcounago/javablockchain/commons/estructuras/PoolTransacciones.java:29 | after `add` the hash is held (by the older element if there was one), nothing else changes, and adding again changes nothing |
| Pool.EliminarDeshaceInsertar | src/main/java/com/lfcounago/javablockchain/commons/estructuras/PoolTransacciones.java:40-42 | removing undoes adding a transaction whose hash was not held |
| Pool.ContieneTrasEliminar | src/main/java/com/lfcounago/javablockchain/commons/estructuras/PoolTransacciones.java:52-54 | after removing t, the pool contains a list exactly when it did before and no element of the list equals t |
| Pool.InsertarTodasClaves | src/main/java/com/lfcounago/javablockchain/commons/estructuras/PoolTransacciones.java:16-18 | `addAll` holds exactly the hashes held before and those of the list |
| Pool.InsertarTodasConserva | src/main/java/com/lfcounago/javablockchain/commons/estructuras/PoolTransacciones.java:16-18 | `addAll` keeps every element already held |
| Pool.InsertarTodasPrimera | src/main/java/com/lfcounago/javablockchain/commons/estructuras/PoolTransacciones.java:16-18 | under a new hash, `addAll` holds the first listed transaction with that hash |
| Pool.DesdeListaContiene | src/main/java/com/lfcounago/javablockchain/commons/estructuras/PoolTransacciones.java:16-18 | a pool built from a list contains that list |
| Cadena.CadenaDeBloques.constructor | src/main/java/com/lfcounago/javablockchain/commons/estructuras/CadenaDeBloques.java:9-12 | a new chain is empty |
| Cadena.CadenaDeBloques.DesdeLista | src/main/java/com/lfcounago/javablockchain/commons/estructuras/CadenaDeBloques.java:14-16 | the list constructor adopts the blocks unchecked |
| Cadena.CadenaDeBloques.SetBloques | src/main/java/com/lfcounago/javablockchain/commons/estructuras/CadenaDeBloques.java:22-24 | replaces the block list |
| Cadena.CadenaDeBloques.AnadirBloque | src/main/java/com/lfcounago/javablockchain/commons/estructuras/CadenaDeBloques.java:52-54 | appends without validation; the block becomes the tip and the count grows by one |
| Cadena.CadenaDeBloques.EstaVacia | src/main/java/com/lfcounago/javablockchain/commons/estructuras/CadenaDeBloques.java:26-28 | the chain is empty exactly when its block list is; `GetNumeroBloques` and `GetUltimoBloque` state their empty cases through it |
| Cadena.CadenaDeBloques.GetNumeroBloques | src/main/java/com/lfcounago/javablockchain/commons/estructuras/CadenaDeBloques.java:30-32 | the count is the length of the block list, 0 for an empty chain |
| Cadena.CadenaDeBloques.GetUltimoBloque | src/main/java/com/lfcounago/javablockchain/commons/estructuras/CadenaDeBloques.java:40-45 | the tip is null exactly when the count is 0, and otherwise the last block of the list |
| Cadena.CadenaDeBloques.Equals | src/main/java/com/lfcounago/javablockchain/commons/estructuras/CadenaDeBloques.java:63-81 | true exactly when the other chain is not null and holds the very same block objects in the same order |
| ServicioBloques.EliminarTodasQuitaHashes | src/main/java/com/lfcounago/javablockchain/nodo/services/ServiceBloques.java:49 | removing the listed transactions one by one removes exactly their hashes |
| ServicioBloques.EliminarTodasIndexado | src/main/java/com/lfcounago/javablockchain/nodo/services/ServiceBloques.java:49 | that removal keeps every entry filed under its own hash |
| ServicioBloques.ServiceBloques.constructor | src/main/java/com/lfcounago/javablockchain/nodo/services/ServiceBloques.java:19-24 | the service starts with a fresh, empty, coherent chain |
| ServicioBloques.ServiceBloques.ValidarBloque | src/main/java/com/lfcounago/javablockchain/nodo/services/ServiceBloques.java:79-118 | true exactly when the block is well formed, links to the tip (null on an empty chain), is within the size limit, is wholly pooled and meets the difficulty |
| ServicioBloques.ServiceBloques.Aceptable | src/main/java/com/lfcounago/javablockchain/nodo/services/ServiceBloques.java:79-118 | the five rules together; `ValidarBloque` returns it, and `ServicioBloques.TamanoCuentaCoinbase`, `ServicioBloques.CoinbaseDebeEstarEnPool` and `ServicioBloques.EncadenarAceptable` state what it refuses and what it keeps |
| ServicioBloques.ServiceBloques.EliminarDelPool | src/main/java/com/lfcounago/javablockchain/nodo/services/ServiceBloques.java:49 | the pool loses exactly the hashes of the listed transactions |
| ServicioBloques.ServiceBloques.AnadirBloque | src/main/java/com/lfcounago/javablockchain/nodo/services/ServiceBloques.java:44-53 | accepts exactly what validation accepts; then appends the block and drops its transactions from the pool; otherwise changes nothing; never touches the ledger |
| ServicioBloques.Encadenar | src/main/java/com/lfcounago/javablockchain/nodo/services/ServiceBloques.java:86-97 | appending a correct block that links to the tip (null on an empty chain) keeps a chain coherent |
| ServicioBloques.EncadenarAceptable | src/main/java/com/lfcounago/javablockchain/nodo/services/ServiceBloques.java:79-118 | appending a block the rules accept keeps the service's chain coherent |
| ServicioBloques.CadenaCoherenteEnlaza | src/main/java/com/lfcounago/javablockchain/nodo/services/ServiceBloques.java:79-118 | in a coherent chain each block's hash is the header hash over the previous block's hash |
| ServicioBloques.TamanoCuentaCoinbase | src/main/java/com/lfcounago/javablockchain/nodo/services/ServiceBloques.java:100-103 | the size rule counts every transaction, coinbase included: with limit 0 any non-empty block is refused |
| ServicioBloques.CoinbaseDebeEstarEnPool | src/main/java/com/lfcounago/javablockchain/nodo/services/ServiceBloques.java:106-109 | a block with any unpooled transaction, coinbase included, is refused |
| ServicioMinado.CoinbaseSellada | src/main/java/com/lfcounago/javablockchain/nodo/services/ServiceMinado.java:137-139 | the reward has no sender or signature, pays the configured amount to the configured key, carries the clock and a coherent hash |
| ServicioMinado.TransaccionCoinbase | src/main/java/com/lfcounago/javablockchain/nodo/services/ServiceMinado.java:137 | the reward built for the configured key and configured amount, with no sender or signature and the coinbase flag set |
| ServicioMinado.CoinbaseNuncaValida | src/main/java/com/lfcounago/javablockchain/nodo/services/ServiceMinado.java:137-141 | whatever its amount, the reward never passes `esValida`, so the pool never admits it |
| ServicioMinado.SembrarFalla | src/main/java/com/lfcounago/javablockchain/nodo/services/ServiceMinado.java:108-115 | the seeding loop throws exactly when some pooled transaction has no sender |
| ServicioMinado.Sembrar | src/main/java/com/lfcounago/javablockchain/nodo/services/ServiceMinado.java:106-115 | the seeding loop from a given temporary table; `ServicioMinado.SembrarFalla` and `ServicioMinado.SembrarEfecto` state when it throws and what it copies |
| ServicioMinado.SembrarEfecto | src/main/java/com/lfcounago/javablockchain/nodo/services/ServiceMinado.java:106-115 | otherwise the temporary ledger holds exactly the pool senders the current ledger knows, each at its current balance |
| ServicioMinado.PasoSeleccionOmite | src/main/java/com/lfcounago/javablockchain/nodo/services/ServiceMinado.java:124-133 | a transaction whose sender is not in the temporary ledger, or who cannot cover it, leaves the ledger unchanged and the pass goes on |
| ServicioMinado.Seleccionar | src/main/java/com/lfcounago/javablockchain/nodo/services/ServiceMinado.java:117-134 | the selection pass over the pool; `ServicioMinado.PasoSeleccionOmite`, `ServicioMinado.SeleccionarSinNegativos` and `ServicioMinado.SeleccionarConservaTotal` state what it skips and what it keeps |
| ServicioMinado.SeleccionarSinNegativos | src/main/java/com/lfcounago/javablockchain/nodo/services/ServiceMinado.java:120-134 | with non-negative amounts the pass never drives a temporary balance below zero |
| ServicioMinado.SeleccionarConservaTotal | src/main/java/com/lfcounago/javablockchain/nodo/services/ServiceMinado.java:120-134 | over transfers with recipients the pass keeps the sum of temporary balances |
| ServicioMinado.BuscarNonce | src/main/java/com/lfcounago/javablockchain/nodo/services/ServiceMinado.java:144-153 | a found pass index lies between the starting pass and the last one |
| ServicioMinado.BuscarNonceEncontrado | src/main/java/com/lfcounago/javablockchain/nodo/services/ServiceMinado.java:144-150 | the found pass saw the snapshot tip and its candidate meets the difficulty |
| ServicioMinado.BuscarNonceAnteriores | src/main/java/com/lfcounago/javablockchain/nodo/services/ServiceMinado.java:144-151 | nonces are tried in increasing order: every earlier pass saw the snapshot tip and fell short |
| ServicioMinado.BuscarNonceAgotado | src/main/java/com/lfcounago/javablockchain/nodo/services/ServiceMinado.java:144-153 | no result means every pass that still saw the snapshot tip fell short |
| ServicioMinado.ServiceMinado.SembrarSaldosTemporales | src/main/java/com/lfcounago/javablockchain/nodo/services/ServiceMinado.java:106-115 | the loop yields a fresh ledger holding the seeded table, or null when it throws |
| ServicioMinado.ServiceMinado.SeleccionarTransacciones | src/main/java/com/lfcounago/javablockchain/nodo/services/ServiceMinado.java:117-134 | the block list stays empty; with a positive limit the whole pool is settled against the temporary ledger, and otherwise nothing is |
| ServicioMinado.ServiceMinado.IncrementarNonce | src/main/java/com/lfcounago/javablockchain/nodo/services/ServiceMinado.java:151 | `nonce++` turns the nonce of pass k into that of pass k + 1, wrapping at 2^63 |
| ServicioMinado.ServiceMinado.Candidato | src/main/java/com/lfcounago/javablockchain/nodo/services/ServiceMinado.java:147-148 | the candidate is a fresh, well-formed block over the given fields, and its zero count is that of its hash |
| ServicioMinado.ServiceMinado.BuscarBloque | src/main/java/com/lfcounago/javablockchain/nodo/services/ServiceMinado.java:143-153 | returns null exactly when the search finds no nonce; otherwise a fresh, well-formed block with the found nonce, meeting the difficulty |
| ServicioMinado.ServiceMinado.MinarBloque | src/main/java/com/lfcounago/javablockchain/nodo/services/ServiceMinado.java:97-154 | the miner throws exactly when seeding throws; a mined block links to the snapshot tip, holds only the coinbase, carries the first passing nonce and meets the difficulty; no nonce gives null |
| ServicioMinado.BloqueMinadoRechazado | src/main/java/com/lfcounago/javablockchain/nodo/services/ServiceMinado.java:137-141 | a block carrying only a coinbase the pool lacks is refused by block acceptance |
| ServicioMinado.BloqueMinadoExcedeLimite | src/main/java/com/lfcounago/javablockchain/nodo/services/ServiceBloques.java:100-103 | with a size limit below one, the miner's one-transaction block is refused |

## Left out

- Amounts are `double` in Java and `int` here. Floating point, and the text `String.valueOf(double)` gives, are not modelled; the amount text is an uninterpreted function of the amount.
- SHA-256, DSA verification and Base64 are uninterpreted functions. Key generation and signing (`UtilidadesFirma`) are not part of this model.
- Clocks are parameters: the constructors take `ahora`, and the miner takes the coinbase time and one clock reading per search pass.
- The miner's thread, its `AtomicBoolean` running flag, `startMinado`/`pararMinado`/`run` and every `synchronized` are concurrency and are left out. The search is driven by a finite sequence of passes; each pass gives the chain tip read at its start, and the flag is taken as cleared when the sequence ends.
- ServicioMinado.ServiceMinado.MinarBloque: the tip is an input per pass, so a block appended concurrently between the tip check and the block's creation is not modelled.
- The REST controllers, `ServiceNodo`, peer download (`obtenerCadenaDeBloques`, `obtenerPoolTransacciones`) and the XML-backed `Configuracion` singleton are I/O. The configuration is the constant value `Base.Configuracion`.
- `ServiceTransacciones` only delegates to the pool. `ServiceBloques` and `ServiceMinado` hold the pool directly.
- `toString`, console output, getters, and the setters of `Bloque` and of the commons `Transaccion` are left out. The commons transaction is a value, so updates build new values and aliasing between holders is not modelled.
- Cadena.CadenaDeBloques.DesdeLista: the chain keeps its own copy of the block sequence. In Java the list constructor and `setBloques` (Cadena.CadenaDeBloques.SetBloques) keep the caller's `List` itself, so later changes the caller makes to that list are not modelled.
- Cadena.CadenaDeBloques.EstaVacia: a null block list is not modelled (the list is always present), so `estaVacia` covers only the empty list.
- The commons transaction's stored hash is never null here (the hash is always present); the legacy class keeps a nullable hash.
- ServicioBloques.ServiceBloques.AnadirBloque: that an accepted block keeps the chain coherent is proved separately (`ServicioBloques.EncadenarAceptable`) and is not repeated in the method's contract.
- `src/estructuras/Main.java` and `ServiceNodo.getBloqueGenesis` rely on code that is not shown; they are not part of this model.
