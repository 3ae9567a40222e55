/** Candidate assembly and nonce search (nodo/services/ServiceMinado.java, minarBloque). */
module ServicioMinado {
  import opened Base
  import opened Transacciones
  import opened Bloques
  import opened Saldos
  import opened Pool
  import opened Cadena
  import opened ServicioBloques

  // ---------------------------------------------------------------------------
  // The coinbase

  /**
   * The one-argument constructor the miner calls, which the class as shown does not declare:
   * assumed to build a coinbase paying `receptor` the configured reward `cantidad`, every other
   * field at its default (no sender, no signature, timestamp 0, empty hash).
   */
  function TransaccionCoinbase(receptor: Bytes, cantidad: int): (t: Transaccion)
    ensures t.esCoinbase && t.emisor == None && t.firma == None
    ensures t.destinatario == Some(receptor) && t.cantidad == cantidad
  {
    Transaccion([], None, Some(receptor), cantidad, None, 0, true)
  }

  /** The reward after setTimestamp and setHash(calcularHashTransaccion()). */
  function CoinbaseSellada(c: Cripto, receptor: Bytes, cantidad: int, ahora: int): (t: Transaccion)
    ensures t.esCoinbase && t.emisor == None && t.destinatario == Some(receptor) && t.firma == None
    ensures t.cantidad == cantidad && t.timestamp == ahora
    ensures t.hash == CalcularHashTransaccion(c, t)
  {
    var sellada := TransaccionCoinbase(receptor, cantidad).(timestamp := ahora);
    sellada.(hash := CalcularHashTransaccion(c, sellada))
  }

  /**
   * Having no sender or signature, the reward never passes esValida, whatever its amount, so the
   * pool never admits it.
   */
  lemma CoinbaseNuncaValida(c: Cripto, receptor: Bytes, cantidad: int, ahora: int)
    ensures !EsValida(c, CoinbaseSellada(c, receptor, cantidad, ahora))
  {
  }

  // ---------------------------------------------------------------------------
  // Seeding the temporary ledger

  /**
   * The first loop over the pool, from temporary table `temp`: each sender the current ledger
   * knows is copied at its current balance. A transaction without sender makes existeCuenta throw
   * outside any handler: `None`.
   */
  function Sembrar(c: Cripto, actuales: Tabla, temp: Tabla, ts: seq<Transaccion>): Option<Tabla>
    decreases |ts|
  {
    if ts == [] then Some(temp)
    else
      match ts[0].emisor
      case None => None
      case Some(e) =>
        var k := c.base64(e);
        Sembrar(c, actuales, if k in actuales then temp[k := actuales[k]] else temp, ts[1..])
  }

  /** The account of a transaction's sender, when it has one, is `k`. */
  predicate EmiteDesde(c: Cripto, t: Transaccion, k: string)
  {
    t.emisor.Some? && c.base64(t.emisor.value) == k
  }

  /** Some transaction of the list is sent from account `k`. */
  predicate AlgunEmisor(c: Cripto, ts: seq<Transaccion>, k: string)
  {
    exists i :: 0 <= i < |ts| && EmiteDesde(c, ts[i], k)
  }

  /** Some transaction of the list has no sender. */
  predicate FaltaEmisor(ts: seq<Transaccion>)
  {
    exists i :: 0 <= i < |ts| && ts[i].emisor.None?
  }

  lemma AlgunEmisorCola(c: Cripto, ts: seq<Transaccion>, k: string)
    requires ts != []
    ensures AlgunEmisor(c, ts, k) <==> EmiteDesde(c, ts[0], k) || AlgunEmisor(c, ts[1..], k)
  {
    if AlgunEmisor(c, ts, k) {
      var i :| 0 <= i < |ts| && EmiteDesde(c, ts[i], k);
      if i > 0 {
        assert EmiteDesde(c, ts[1..][i - 1], k);
      }
    }
    if AlgunEmisor(c, ts[1..], k) {
      var i :| 0 <= i < |ts[1..]| && EmiteDesde(c, ts[1..][i], k);
      assert EmiteDesde(c, ts[i + 1], k);
    }
  }

  lemma FaltaEmisorCola(ts: seq<Transaccion>)
    requires ts != []
    ensures FaltaEmisor(ts) <==> ts[0].emisor.None? || FaltaEmisor(ts[1..])
  {
    if FaltaEmisor(ts) {
      var i :| 0 <= i < |ts| && ts[i].emisor.None?;
      if i > 0 {
        assert ts[1..][i - 1].emisor.None?;
      }
    }
    if FaltaEmisor(ts[1..]) {
      var i :| 0 <= i < |ts[1..]| && ts[1..][i].emisor.None?;
      assert ts[i + 1].emisor.None?;
    }
  }

  /** Seeding fails, and the miner throws, exactly when some pooled transaction has no sender. */
  lemma {:induction false} SembrarFalla(c: Cripto, actuales: Tabla, temp: Tabla, ts: seq<Transaccion>)
    ensures Sembrar(c, actuales, temp, ts).None? <==> FaltaEmisor(ts)
    decreases |ts|
  {
    if ts != [] {
      FaltaEmisorCola(ts);
      if ts[0].emisor.Some? {
        var k0 := c.base64(ts[0].emisor.value);
        SembrarFalla(c, actuales, if k0 in actuales then temp[k0 := actuales[k0]] else temp, ts[1..]);
      }
    }
  }

  /**
   * Otherwise seeding adds exactly the accounts of pool senders the current ledger holds, each at
   * its current balance, and keeps the rest of the starting table.
   */
  lemma {:induction false} SembrarEfecto(c: Cripto, actuales: Tabla, temp: Tabla, ts: seq<Transaccion>, k: string)
    requires Sembrar(c, actuales, temp, ts).Some?
    ensures var r := Sembrar(c, actuales, temp, ts).value;
      && (k in r <==> k in temp || (k in actuales && AlgunEmisor(c, ts, k)))
      && (k in actuales && AlgunEmisor(c, ts, k) ==> r[k] == actuales[k])
      && (k in temp && !(k in actuales && AlgunEmisor(c, ts, k)) ==> r[k] == temp[k])
    decreases |ts|
  {
    if ts != [] {
      var k0 := c.base64(ts[0].emisor.value);
      SembrarEfecto(c, actuales, if k0 in actuales then temp[k0 := actuales[k0]] else temp, ts[1..], k);
      AlgunEmisorCola(c, ts, k);
    }
  }

  // ---------------------------------------------------------------------------
  // The selection pass

  /**
   * One step of the second loop: a sender the temporary ledger holds has the transaction settled
   * there, including the partial debit a missing recipient leaves; any other transaction throws,
   * is caught and leaves the table as it was.
   */
  function PasoSeleccion(c: Cripto, temp: Tabla, t: Transaccion): Tabla
  {
    match t.emisor
    case None => temp
    case Some(e) => if c.base64(e) in temp then Liquidacion(c, temp, t).saldos else temp
  }

  /** The whole pass over the pool, in iteration order. */
  function Seleccionar(c: Cripto, temp: Tabla, ts: seq<Transaccion>): Tabla
    decreases |ts|
  {
    if ts == [] then temp else Seleccionar(c, PasoSeleccion(c, temp, ts[0]), ts[1..])
  }

  /** A skipped transaction leaves the temporary ledger alone; the pass then goes on. */
  lemma PasoSeleccionOmite(c: Cripto, temp: Tabla, t: Transaccion)
    requires t.emisor.Some?
    requires c.base64(t.emisor.value) !in temp || (!t.esCoinbase && Saldo(temp, c.base64(t.emisor.value)) < t.cantidad)
    ensures PasoSeleccion(c, temp, t) == temp
  {
  }

  /** With non-negative amounts, the pass never drives a temporary balance below zero. */
  lemma {:induction false} SeleccionarSinNegativos(c: Cripto, temp: Tabla, ts: seq<Transaccion>)
    requires SinNegativos(temp)
    requires forall i :: 0 <= i < |ts| ==> ts[i].cantidad >= 0
    ensures SinNegativos(Seleccionar(c, temp, ts))
    decreases |ts|
  {
    if ts != [] {
      assert forall i :: 0 <= i < |ts[1..]| ==> ts[1..][i] == ts[i + 1];
      var siguiente := PasoSeleccion(c, temp, ts[0]);
      LiquidacionSinNegativos(c, temp, ts[0]);
      SeleccionarSinNegativos(c, siguiente, ts[1..]);
      assert Seleccionar(c, temp, ts) == Seleccionar(c, siguiente, ts[1..]);
    } else {
      assert Seleccionar(c, temp, ts) == temp;
    }
  }

  /** When every pooled transaction is a transfer with a recipient, the pass only moves money: the total is kept. */
  lemma {:induction false} SeleccionarConservaTotal(c: Cripto, temp: Tabla, ts: seq<Transaccion>)
    requires forall i :: 0 <= i < |ts| ==> !ts[i].esCoinbase && ts[i].destinatario.Some?
    ensures Total(Seleccionar(c, temp, ts)) == Total(temp)
    decreases |ts|
  {
    if ts != [] {
      var t := ts[0];
      if t.emisor.Some? && c.base64(t.emisor.value) in temp && Saldo(temp, c.base64(t.emisor.value)) >= t.cantidad {
        LiquidacionConserva(c, temp, t);
      }
      SeleccionarConservaTotal(c, PasoSeleccion(c, temp, t), ts[1..]);
    }
  }

  // ---------------------------------------------------------------------------
  // The nonce search

  /**
   * One pass of the search loop as the world shows it: the chain tip read at its start, and the
   * clock the new Bloque stamps. The loop makes as many passes as the sequence has entries, then
   * finds the running flag cleared.
   */
  datatype Intento = Intento(punta: Bloque?, ahora: int)

  /** The leading zero bytes of the header pass j builds: nonce j (as a wrapping `long`), that pass's clock. */
  function CerosPasada(c: Cripto, anterior: Option<Bytes>, raiz: Option<Bytes>, intentos: seq<Intento>, j: nat): nat
    requires j < |intentos|
  {
    CerosIniciales(HashCabecera(c, anterior, raiz, Int64(j), intentos[j].ahora))
  }

  /**
   * The first pass, from `k` on, whose candidate meets the difficulty; `None` when the tip moves
   * first or the passes run out.
   */
  function BuscarNonce(c: Cripto, anterior: Option<Bytes>, raiz: Option<Bytes>, dificultad: int,
                       snapshot: Bloque?, intentos: seq<Intento>, k: nat): (r: Option<nat>)
    ensures r.Some? ==> k <= r.value < |intentos|
    decreases |intentos| - k
  {
    if k >= |intentos| then None
    else if intentos[k].punta != snapshot then None
    else if CerosPasada(c, anterior, raiz, intentos, k) >= dificultad then Some(k)
    else BuscarNonce(c, anterior, raiz, dificultad, snapshot, intentos, k + 1)
  }

  /** A found nonce n saw the snapshot tip and meets the difficulty. */
  lemma {:induction false} BuscarNonceEncontrado(c: Cripto, anterior: Option<Bytes>, raiz: Option<Bytes>,
                                                 dificultad: int, snapshot: Bloque?, intentos: seq<Intento>, k: nat)
    requires BuscarNonce(c, anterior, raiz, dificultad, snapshot, intentos, k).Some?
    ensures var n := BuscarNonce(c, anterior, raiz, dificultad, snapshot, intentos, k).value;
      intentos[n].punta == snapshot && CerosPasada(c, anterior, raiz, intentos, n) >= dificultad
    decreases |intentos| - k
  {
    assert k < |intentos| && intentos[k].punta == snapshot;
    if CerosPasada(c, anterior, raiz, intentos, k) < dificultad {
      assert BuscarNonce(c, anterior, raiz, dificultad, snapshot, intentos, k)
          == BuscarNonce(c, anterior, raiz, dificultad, snapshot, intentos, k + 1);
      BuscarNonceEncontrado(c, anterior, raiz, dificultad, snapshot, intentos, k + 1);
    }
  }

  /** Nonces are tried in increasing order: every pass from k up to a found nonce saw the same tip and fell short. */
  lemma {:induction false} BuscarNonceAnteriores(c: Cripto, anterior: Option<Bytes>, raiz: Option<Bytes>,
                                                 dificultad: int, snapshot: Bloque?, intentos: seq<Intento>, k: nat,
                                                 j: nat)
    requires BuscarNonce(c, anterior, raiz, dificultad, snapshot, intentos, k).Some?
    requires k <= j < BuscarNonce(c, anterior, raiz, dificultad, snapshot, intentos, k).value
    ensures intentos[j].punta == snapshot && CerosPasada(c, anterior, raiz, intentos, j) < dificultad
    decreases j - k
  {
    assert intentos[k].punta == snapshot && CerosPasada(c, anterior, raiz, intentos, k) < dificultad;
    if k < j {
      assert BuscarNonce(c, anterior, raiz, dificultad, snapshot, intentos, k)
          == BuscarNonce(c, anterior, raiz, dificultad, snapshot, intentos, k + 1);
      BuscarNonceAnteriores(c, anterior, raiz, dificultad, snapshot, intentos, k + 1, j);
    }
  }

  /**
   * No result means no pass meets the difficulty before the tip moves: every pass that still saw
   * the snapshot tip, all the way from `k`, fell short.
   */
  lemma {:induction false} BuscarNonceAgotado(c: Cripto, anterior: Option<Bytes>, raiz: Option<Bytes>,
                                              dificultad: int, snapshot: Bloque?, intentos: seq<Intento>, k: nat,
                                              j: nat)
    requires BuscarNonce(c, anterior, raiz, dificultad, snapshot, intentos, k).None?
    requires k <= j < |intentos|
    requires forall i :: k <= i <= j ==> intentos[i].punta == snapshot
    ensures CerosPasada(c, anterior, raiz, intentos, j) < dificultad
    decreases j - k
  {
    if k < j {
      BuscarNonceAgotado(c, anterior, raiz, dificultad, snapshot, intentos, k + 1, j);
    }
  }

  // ---------------------------------------------------------------------------
  // minarBloque

  /** What minarBloque ends in: a block, null, or an exception that escapes it. */
  datatype ResultadoMinado = Minado(bloque: Bloque) | SinBloque | Excepcion

  class ServiceMinado {
    const servicioBloques: ServiceBloques

    constructor (servicioBloques: ServiceBloques)
      ensures this.servicioBloques == servicioBloques
    {
      this.servicioBloques := servicioBloques;
    }

    /**
     * The first loop of minarBloque: a fresh temporary ledger holding each pool sender the current
     * ledger knows, at its current balance; null when a sender is missing and the loop throws.
     */
    method SembrarSaldosTemporales(c: Cripto, saldosActuales: RegistroSaldos, pool: seq<Transaccion>)
      returns (saldosTemporales: RegistroSaldos?)
      ensures saldosTemporales == null <==> Sembrar(c, saldosActuales.saldos, map[], pool).None?
      ensures saldosTemporales != null ==>
        fresh(saldosTemporales) && Sembrar(c, saldosActuales.saldos, map[], pool) == Some(saldosTemporales.saldos)
    {
      saldosTemporales := new RegistroSaldos();
      for i := 0 to |pool|
        invariant fresh(saldosTemporales)
        invariant Sembrar(c, saldosActuales.saldos, saldosTemporales.saldos, pool[i..])
               == Sembrar(c, saldosActuales.saldos, map[], pool)
      {
        assert pool[i..][1..] == pool[i + 1..];
        var emisor := pool[i].emisor;
        if emisor.None? {
          return null;
        }
        if saldosActuales.ExisteCuenta(c, emisor.value) {
          saldosTemporales.SetSaldoCuenta(c, emisor.value, saldosActuales.GetSaldoCuenta(c, emisor.value));
        }
      }
      assert pool[|pool|..] == [];
    }

    /**
     * The second loop of minarBloque: while the block's list is below the limit, settle each pool
     * transaction against the temporary ledger, skipping those that throw. The list is never
     * appended to, so it stays empty and the loop runs over the whole pool whenever the limit is
     * positive.
     */
    method SeleccionarTransacciones(c: Cripto, saldosTemporales: RegistroSaldos, pool: seq<Transaccion>,
                                    maxTransacciones: int)
      returns (transaccionesBloque: seq<Transaccion>)
      modifies saldosTemporales
      ensures transaccionesBloque == []
      ensures saldosTemporales.saldos ==
        if maxTransacciones > 0 then Seleccionar(c, old(saldosTemporales.saldos), pool)
        else old(saldosTemporales.saldos)
    {
      transaccionesBloque := [];
      var j := 0;
      while |transaccionesBloque| < maxTransacciones && j < |pool|
        invariant 0 <= j <= |pool|
        invariant transaccionesBloque == []
        invariant Seleccionar(c, saldosTemporales.saldos, pool[j..]) == Seleccionar(c, old(saldosTemporales.saldos), pool)
        invariant maxTransacciones <= 0 ==> saldosTemporales.saldos == old(saldosTemporales.saldos)
        decreases |pool| - j
      {
        assert pool[j..][1..] == pool[j + 1..];
        var transaccion := pool[j];
        if transaccion.emisor.Some? && saldosTemporales.ExisteCuenta(c, transaccion.emisor.value) {
          var error := saldosTemporales.LiquidarTransaccion(c, transaccion);
        }
        j := j + 1;
      }
      assert maxTransacciones > 0 ==> pool[j..] == [];
    }

    /** `nonce++` on a Java `long`: the nonce of pass k becomes that of pass k + 1, wrapping at 2^63. */
    method IncrementarNonce(nonce: int, ghost k: nat) returns (siguiente: int)
      requires nonce == Int64(k)
      ensures siguiente == Int64(k + 1)
    {
      Int64Sucesor(k);
      siguiente := Int64(nonce + 1);
    }

    /** One pass of the nonce loop: the candidate block and the number of zero bytes its hash starts with. */
    method Candidato(c: Cripto, hashUltimoBloque: Option<Bytes>, transaccionesBloque: seq<Transaccion>,
                     nonce: int, ahora: int)
      returns (bloque: Bloque, ceros: nat)
      ensures fresh(bloque)
      ensures bloque.hashBloqueAnterior == hashUltimoBloque && bloque.transacciones == transaccionesBloque
      ensures bloque.nonce == nonce && bloque.timestamp == ahora && bloque.EstructuraValida(c)
      ensures bloque.hash == HashCabecera(c, hashUltimoBloque, RaizMerkle(c, Hashes(transaccionesBloque)), nonce, ahora)
      ensures ceros == CerosIniciales(bloque.hash)
    {
      bloque := new Bloque(c, hashUltimoBloque, transaccionesBloque, nonce, ahora);
      ceros := bloque.NumeroDeCerosHash();
    }

    /**
     * The nonce loop of minarBloque: pass k gives up when the tip is no longer the snapshot, else
     * builds the block with nonce k and returns it when it meets the difficulty.
     */
    method BuscarBloque(c: Cripto, dificultad: int, ultimoBloque: Bloque?, hashUltimoBloque: Option<Bytes>,
                        transaccionesBloque: seq<Transaccion>, intentos: seq<Intento>)
      returns (bloque: Bloque?)
      ensures var n := BuscarNonce(c, hashUltimoBloque, RaizMerkle(c, Hashes(transaccionesBloque)), dificultad,
                                   ultimoBloque, intentos, 0);
        && (bloque == null <==> n.None?)
        && (bloque != null ==>
              && fresh(bloque)
              && bloque.hashBloqueAnterior == hashUltimoBloque
              && bloque.transacciones == transaccionesBloque
              && bloque.nonce == Int64(n.value)
              && bloque.timestamp == intentos[n.value].ahora
              && bloque.EstructuraValida(c)
              && CerosIniciales(bloque.hash) >= dificultad)
    {
      var raiz := RaizMerkle(c, Hashes(transaccionesBloque));
      var nonce := 0;
      var k := 0;
      while k < |intentos|
        invariant 0 <= k <= |intentos|
        invariant nonce == Int64(k)
        invariant BuscarNonce(c, hashUltimoBloque, raiz, dificultad, ultimoBloque, intentos, k)
               == BuscarNonce(c, hashUltimoBloque, raiz, dificultad, ultimoBloque, intentos, 0)
        decreases |intentos| - k
      {
        ghost var n := BuscarNonce(c, hashUltimoBloque, raiz, dificultad, ultimoBloque, intentos, k);
        if ultimoBloque != intentos[k].punta {
          assert n == None;
          return null;
        }
        var ceros;
        bloque, ceros := Candidato(c, hashUltimoBloque, transaccionesBloque, nonce, intentos[k].ahora);
        assert ceros == CerosPasada(c, hashUltimoBloque, raiz, intentos, k);
        if ceros >= dificultad {
          assert n == Some(k);
          return bloque;
        }
        assert n == BuscarNonce(c, hashUltimoBloque, raiz, dificultad, ultimoBloque, intentos, k + 1);
        nonce := IncrementarNonce(nonce, k);
        k := k + 1;
      }
      return null;
    }

    /**
     * minarBloque. `orden` is the order in which the pool's iterator yields its transactions;
     * `saldosFinales` is what the selection pass leaves in the temporary ledger. Nothing that
     * existed before the call is changed: not the chain, not its ledger, not the pool.
     */
    method MinarBloque(ahoraCoinbase: int, intentos: seq<Intento>)
      returns (r: ResultadoMinado, ghost orden: seq<Transaccion>, ghost saldosFinales: Tabla)
      requires servicioBloques.poolTransacciones.Valido()
      ensures forall t :: t in orden <==> t.hash in servicioBloques.poolTransacciones.pool
                                          && servicioBloques.poolTransacciones.pool[t.hash] == t
      ensures var actuales := servicioBloques.cadenaDeBloques.saldos.saldos;
        var sembrado := Sembrar(servicioBloques.c, actuales, map[], orden);
        && (r.Excepcion? <==> sembrado.None?)
        && (sembrado.Some? && servicioBloques.config.maxTransaccionesEnBloque > 0 ==>
              saldosFinales == Seleccionar(servicioBloques.c, sembrado.value, orden))
        && (sembrado.Some? && servicioBloques.config.maxTransaccionesEnBloque <= 0 ==>
              saldosFinales == sembrado.value)
      ensures var c := servicioBloques.c;
        var config := servicioBloques.config;
        var snapshot := servicioBloques.cadenaDeBloques.GetUltimoBloque();
        var anterior := if snapshot == null then None else Some(snapshot.hash);
        var coinbase := CoinbaseSellada(c, config.coinbase, config.cantidadCoinbase, ahoraCoinbase);
        var n := BuscarNonce(c, anterior, Some(coinbase.hash), config.dificultad, snapshot, intentos, 0);
        && (r.Minado? ==>
              && n.Some? && fresh(r.bloque)
              && r.bloque.hashBloqueAnterior == anterior
              && r.bloque.transacciones == [coinbase]
              && r.bloque.nonce == Int64(n.value)
              && r.bloque.timestamp == intentos[n.value].ahora
              && r.bloque.EstructuraValida(c)
              && CerosIniciales(r.bloque.hash) >= config.dificultad)
        && (!r.Excepcion? ==> (r.SinBloque? <==> n.None?))
    {
      var c := servicioBloques.c;
      var config := servicioBloques.config;
      var ultimoBloque := servicioBloques.cadenaDeBloques.GetUltimoBloque();
      var hashUltimoBloque := if ultimoBloque != null then Some(ultimoBloque.hash) else None;

      // Temporary balances, to catch double spending.
      var saldosActuales := servicioBloques.cadenaDeBloques.saldos;
      var pool := servicioBloques.poolTransacciones.Elementos();
      orden := pool;
      var saldosTemporales := SembrarSaldosTemporales(c, saldosActuales, pool);
      if saldosTemporales == null {
        r, saldosFinales := Excepcion, map[];
        return;
      }

      var transaccionesBloque := SeleccionarTransacciones(c, saldosTemporales, pool, config.maxTransaccionesEnBloque);
      saldosFinales := saldosTemporales.saldos;

      // The reward for the proof of work, at the front of the list.
      var txCoinbase := CoinbaseSellada(c, config.coinbase, config.cantidadCoinbase, ahoraCoinbase);
      transaccionesBloque := [txCoinbase] + transaccionesBloque;
      assert Hashes(transaccionesBloque) == [txCoinbase.hash];

      var bloque := BuscarBloque(c, config.dificultad, ultimoBloque, hashUltimoBloque, transaccionesBloque, intentos);
      r := if bloque == null then SinBloque else Minado(bloque);
    }
  }

  // ---------------------------------------------------------------------------
  // The miner against the acceptance rules

  /**
   * A mined block carries only the reward, which the pool never holds unless some pooled
   * transaction shares its hash: until then block acceptance refuses every block the miner finds.
   */
  lemma BloqueMinadoRechazado(s: ServiceBloques, b: Bloque, coinbase: Transaccion)
    requires b.transacciones == [coinbase] && coinbase.hash !in s.poolTransacciones.pool
    ensures !s.Aceptable(b)
  {
    CoinbaseDebeEstarEnPool(s, b, 0);
  }

  /** With a size limit below one, the miner's one-transaction block is refused as too large. */
  lemma BloqueMinadoExcedeLimite(s: ServiceBloques, b: Bloque, coinbase: Transaccion)
    requires b.transacciones == [coinbase] && s.config.maxTransaccionesEnBloque < 1
    ensures !s.Aceptable(b)
  {
  }
}
