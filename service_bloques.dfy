/** Block acceptance (nodo/services/ServiceBloques.java). */
module ServicioBloques {
  import opened Base
  import opened Transacciones
  import opened Bloques
  import opened Pool
  import opened Cadena

  /** The hashes of a list of transactions, as a set. */
  function HashesDe(ts: seq<Transaccion>): set<Bytes>
  {
    set t | t in ts :: t.hash
  }

  /** eliminarTransaccion for each listed transaction, in list order. */
  function EliminarTodas(m: Indice, ts: seq<Transaccion>): Indice
    decreases |ts|
  {
    if ts == [] then m else EliminarTodas(m - {ts[0].hash}, ts[1..])
  }

  /** Removing one by one removes exactly the listed hashes. */
  lemma {:induction false} EliminarTodasQuitaHashes(m: Indice, ts: seq<Transaccion>)
    ensures EliminarTodas(m, ts) == m - HashesDe(ts)
    decreases |ts|
  {
    if ts != [] {
      EliminarTodasQuitaHashes(m - {ts[0].hash}, ts[1..]);
      assert HashesDe(ts) == {ts[0].hash} + HashesDe(ts[1..]) by {
        assert forall t :: t in ts <==> t == ts[0] || t in ts[1..];
      }
      assert m - {ts[0].hash} - HashesDe(ts[1..]) == m - HashesDe(ts);
    }
  }

  /** Removal keeps every entry filed under its own hash. */
  lemma {:induction false} EliminarTodasIndexado(m: Indice, ts: seq<Transaccion>)
    requires Indexado(m)
    ensures Indexado(EliminarTodas(m, ts))
    decreases |ts|
  {
    if ts != [] {
      EliminarTodasIndexado(m - {ts[0].hash}, ts[1..]);
    }
  }

  /** The rules a block meets on its own: well formed, within the size limit, hard enough. */
  predicate BloqueCorrecto(c: Cripto, config: Configuracion, b: Bloque)
    reads b
  {
    && b.EstructuraValida(c)
    && |b.transacciones| <= config.maxTransaccionesEnBloque
    && CerosIniciales(b.hash) >= config.dificultad
  }

  /** The first block has no predecessor and each other names the hash of the one before it. */
  predicate Enlazada(bs: seq<Bloque>)
    reads bs
  {
    && (|bs| > 0 ==> bs[0].hashBloqueAnterior == None)
    && (forall i :: 0 < i < |bs| ==> bs[i].hashBloqueAnterior == Some(bs[i - 1].hash))
  }

  /** A chain the acceptance rules could have built from empty. */
  ghost predicate CadenaCoherente(c: Cripto, config: Configuracion, bs: seq<Bloque>)
    reads bs
  {
    (forall i :: 0 <= i < |bs| ==> BloqueCorrecto(c, config, bs[i])) && Enlazada(bs)
  }

  class ServiceBloques {
    const c: Cripto
    const config: Configuracion
    const cadenaDeBloques: CadenaDeBloques
    /** The pool the transaction service delegates to. */
    const poolTransacciones: PoolTransacciones

    /** The service starts with a fresh, empty chain. */
    constructor (c: Cripto, config: Configuracion, poolTransacciones: PoolTransacciones)
      ensures this.c == c && this.config == config && this.poolTransacciones == poolTransacciones
      ensures fresh(cadenaDeBloques) && cadenaDeBloques.bloques == []
      ensures Coherente()
    {
      this.c := c;
      this.config := config;
      this.poolTransacciones := poolTransacciones;
      cadenaDeBloques := new CadenaDeBloques();
    }

    ghost predicate Coherente()
      reads cadenaDeBloques, cadenaDeBloques.bloques
    {
      CadenaCoherente(c, config, cadenaDeBloques.bloques)
    }

    /** The linkage rule: null on an empty chain, otherwise the tip's hash byte for byte. */
    predicate EnlazaConPunta(b: Bloque)
      reads b, cadenaDeBloques, cadenaDeBloques.bloques
    {
      if cadenaDeBloques.EstaVacia() then b.hashBloqueAnterior == None
      else b.hashBloqueAnterior == Some(cadenaDeBloques.GetUltimoBloque().hash)
    }

    /** The five rules of validarBloque: structure, linkage, size, pool membership, difficulty. */
    predicate Aceptable(b: Bloque)
      reads b, cadenaDeBloques, cadenaDeBloques.bloques, poolTransacciones
    {
      && b.EstructuraValida(c)
      && EnlazaConPunta(b)
      && |b.transacciones| <= config.maxTransaccionesEnBloque
      && poolTransacciones.ContieneTransacciones(b.transacciones)
      && CerosIniciales(b.hash) >= config.dificultad
    }

    /** validarBloque: the rules in order, each failing one ending the check. */
    method ValidarBloque(b: Bloque) returns (ok: bool)
      ensures ok == Aceptable(b)
    {
      ok := b.EsValido(c);
      if !ok {
        return false;
      }
      if !cadenaDeBloques.EstaVacia() {
        var hashUltimoBloque := cadenaDeBloques.GetUltimoBloque().hash;
        if b.hashBloqueAnterior != Some(hashUltimoBloque) {
          return false;
        }
      } else {
        if b.hashBloqueAnterior != None {
          return false;
        }
      }
      if |b.transacciones| > config.maxTransaccionesEnBloque {
        return false;
      }
      if !poolTransacciones.ContieneTransacciones(b.transacciones) {
        return false;
      }
      var ceros := b.NumeroDeCerosHash();
      if ceros < config.dificultad {
        return false;
      }
      return true;
    }

    /** The forEach of anadirBloque: eliminarTransaccion for each listed transaction, in order. */
    method EliminarDelPool(ts: seq<Transaccion>)
      requires poolTransacciones.Valido()
      modifies poolTransacciones
      ensures poolTransacciones.pool == old(poolTransacciones.pool) - HashesDe(ts)
      ensures poolTransacciones.Valido()
    {
      for i := 0 to |ts|
        invariant EliminarTodas(poolTransacciones.pool, ts[i..]) == EliminarTodas(old(poolTransacciones.pool), ts)
        invariant poolTransacciones.Valido()
      {
        assert ts[i..][1..] == ts[i + 1..];
        poolTransacciones.EliminarTransaccion(ts[i]);
      }
      EliminarTodasQuitaHashes(old(poolTransacciones.pool), ts);
    }

    /**
     * anadirBloque: an accepted block is appended and each of its transactions removed from the
     * pool; a rejected one changes nothing. No ledger is settled either way.
     */
    method AnadirBloque(b: Bloque) returns (ok: bool)
      requires poolTransacciones.Valido()
      modifies cadenaDeBloques, poolTransacciones
      ensures ok == old(Aceptable(b))
      ensures ok ==> cadenaDeBloques.bloques == old(cadenaDeBloques.bloques) + [b]
      ensures ok ==> poolTransacciones.pool == old(poolTransacciones.pool) - HashesDe(b.transacciones)
      ensures !ok ==> cadenaDeBloques.bloques == old(cadenaDeBloques.bloques)
      ensures !ok ==> poolTransacciones.pool == old(poolTransacciones.pool)
      ensures unchanged(cadenaDeBloques.saldos)
      ensures poolTransacciones.Valido()
    {
      ok := ValidarBloque(b);
      if ok {
        cadenaDeBloques.AnadirBloque(b);
        EliminarDelPool(b.transacciones);
      }
    }
  }

  // ---------------------------------------------------------------------------
  // Properties

  /** Appending a well-formed block that links to the tip and meets the limits keeps a chain coherent. */
  lemma Encadenar(c: Cripto, config: Configuracion, bs: seq<Bloque>, b: Bloque)
    requires CadenaCoherente(c, config, bs) && BloqueCorrecto(c, config, b)
    requires if bs == [] then b.hashBloqueAnterior == None else b.hashBloqueAnterior == Some(bs[|bs| - 1].hash)
    ensures CadenaCoherente(c, config, bs + [b])
  {
    var r := bs + [b];
    assert forall i :: 0 <= i < |bs| ==> r[i] == bs[i];
    assert r[|bs|] == b;
  }

  /** So appending a block the rules accept keeps the service's chain coherent. */
  lemma EncadenarAceptable(s: ServiceBloques, b: Bloque)
    requires s.Coherente() && s.Aceptable(b)
    ensures CadenaCoherente(s.c, s.config, s.cadenaDeBloques.bloques + [b])
  {
    Encadenar(s.c, s.config, s.cadenaDeBloques.bloques, b);
  }

  /**
   * In a coherent chain every block above the first commits to the one below: its stored hash is
   * the header hash over the lower block's hash.
   */
  lemma CadenaCoherenteEnlaza(c: Cripto, config: Configuracion, bs: seq<Bloque>, j: nat)
    requires CadenaCoherente(c, config, bs)
    requires 0 < j < |bs|
    ensures bs[j].hash == HashCabecera(c, Some(bs[j - 1].hash), bs[j].raizArbolMerkle, bs[j].nonce, bs[j].timestamp)
  {
    assert BloqueCorrecto(c, config, bs[j]);
  }

  /**
   * The size rule counts every listed transaction, the coinbase included: with a limit of zero no
   * block carrying a transaction is accepted.
   */
  lemma TamanoCuentaCoinbase(s: ServiceBloques, b: Bloque)
    requires s.config.maxTransaccionesEnBloque == 0 && |b.transacciones| > 0
    ensures !s.Aceptable(b)
  {
  }

  /** The pool rule covers every listed transaction, the coinbase included. */
  lemma CoinbaseDebeEstarEnPool(s: ServiceBloques, b: Bloque, i: nat)
    requires i < |b.transacciones| && b.transacciones[i].hash !in s.poolTransacciones.pool
    ensures !s.Aceptable(b)
  {
  }
}
