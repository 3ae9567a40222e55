/** The pending-transaction pool (commons/estructuras/PoolTransacciones.java). */
module Pool {
  import opened Base
  import opened Transacciones

  /**
   * The pool's HashSet, indexed by stored hash: Transaccion's equals and hashCode both look only at
   * the hash, so the set holds at most one transaction per hash.
   */
  type Indice = map<Bytes, Transaccion>

  /** Every entry is filed under its own hash. */
  ghost predicate Indexado(m: Indice)
  {
    forall h :: h in m ==> m[h].hash == h
  }

  /** HashSet.add: a transaction equal to one already held leaves the set as it was. */
  function Insertar(m: Indice, t: Transaccion): (r: Indice)
    ensures r.Keys == m.Keys + {t.hash}
  {
    if t.hash in m then m else m[t.hash := t]
  }

  /** HashSet.addAll over a list: `add` for each element, in list order. */
  function InsertarTodas(m: Indice, ts: seq<Transaccion>): Indice
    decreases |ts|
  {
    if ts == [] then m else InsertarTodas(Insertar(m, ts[0]), ts[1..])
  }

  /** containsAll: every transaction of the collection has an equal one in the set. */
  predicate Contiene(m: Indice, ts: seq<Transaccion>)
  {
    forall i :: 0 <= i < |ts| ==> ts[i].hash in m
  }

  class PoolTransacciones {
    var pool: Indice

    ghost predicate Valido()
      reads this
    {
      Indexado(pool)
    }

    /** The no-argument constructor: an empty pool. */
    constructor ()
      ensures pool == map[] && Valido()
    {
      pool := map[];
    }

    /** The list constructor: addAll of the list into an empty set. */
    constructor DesdeLista(transacciones: seq<Transaccion>)
      ensures pool == InsertarTodas(map[], transacciones) && Valido()
    {
      pool := InsertarTodas(map[], transacciones);
      InsertarTodasIndexado(map[], transacciones);
    }

    /** anadirTransaccion: adds the transaction exactly when it is valid, and says whether it did. */
    method AnadirTransaccion(c: Cripto, t: Transaccion) returns (ok: bool)
      requires Valido()
      modifies this
      ensures ok == EsValida(c, t)
      ensures pool == if ok then Insertar(old(pool), t) else old(pool)
      ensures Valido()
    {
      if EsValida(c, t) {
        pool := Insertar(pool, t);
        return true;
      }
      return false;
    }

    /** eliminarTransaccion: removes the transaction equal to `t`, if any. */
    method EliminarTransaccion(t: Transaccion)
      requires Valido()
      modifies this
      ensures pool == old(pool) - {t.hash}
      ensures Valido()
    {
      pool := pool - {t.hash};
    }

    /** contieneTransacciones */
    predicate ContieneTransacciones(ts: seq<Transaccion>)
      reads this
    {
      Contiene(pool, ts)
    }

    /**
     * The transactions the set's iterator yields, in an order left open (a HashSet promises none):
     * each held transaction exactly once.
     */
    method Elementos() returns (ts: seq<Transaccion>)
      requires Valido()
      ensures forall t :: t in ts <==> t.hash in pool && pool[t.hash] == t
      ensures forall i, j :: 0 <= i < j < |ts| ==> ts[i].hash != ts[j].hash
    {
      var resto := pool;
      ts := [];
      while resto != map[]
        invariant forall h :: h in resto ==> h in pool && resto[h] == pool[h]
        invariant forall t :: t in ts <==> t.hash in pool && t.hash !in resto && pool[t.hash] == t
        invariant forall i, j :: 0 <= i < j < |ts| ==> ts[i].hash != ts[j].hash
        decreases |resto.Keys|
      {
        var h :| h in resto;
        assert (resto - {h}).Keys == resto.Keys - {h};
        assert resto[h].hash == h && forall i :: 0 <= i < |ts| ==> ts[i].hash != h;
        ts := ts + [resto[h]];
        resto := resto - {h};
      }
    }
  }

  // ---------------------------------------------------------------------------
  // Properties

  /** Adding keeps every entry filed under its own hash. */
  lemma InsertarIndexado(m: Indice, t: Transaccion)
    requires Indexado(m)
    ensures Indexado(Insertar(m, t))
  {
  }

  lemma {:induction false} InsertarTodasIndexado(m: Indice, ts: seq<Transaccion>)
    requires Indexado(m)
    ensures Indexado(InsertarTodas(m, ts))
    decreases |ts|
  {
    if ts != [] {
      InsertarTodasIndexado(Insertar(m, ts[0]), ts[1..]);
    }
  }

  /**
   * After `add` the transaction is held, under its hash: itself when the hash was new, the older
   * transaction otherwise; nothing else changes, and adding again changes nothing.
   */
  lemma InsertarEfecto(m: Indice, t: Transaccion)
    ensures var r := Insertar(m, t);
      && Contiene(r, [t])
      && r[t.hash] == (if t.hash in m then m[t.hash] else t)
      && r - {t.hash} == m - {t.hash}
      && Insertar(r, t) == r
  {
  }

  /** Removing undoes adding a transaction whose hash was not held. */
  lemma EliminarDeshaceInsertar(m: Indice, t: Transaccion)
    requires t.hash !in m
    ensures Insertar(m, t) - {t.hash} == m
  {
    assert Insertar(m, t) - {t.hash} == m;
  }

  /** After removing `t` the pool contains a list exactly when it did and no element equals `t`. */
  lemma ContieneTrasEliminar(m: Indice, t: Transaccion, ts: seq<Transaccion>)
    ensures Contiene(m - {t.hash}, ts) <==> Contiene(m, ts) && forall i :: 0 <= i < |ts| ==> ts[i].hash != t.hash
  {
  }

  /** addAll holds exactly the hashes already held and those of the list. */
  lemma {:induction false} InsertarTodasClaves(m: Indice, ts: seq<Transaccion>)
    ensures forall h :: h in InsertarTodas(m, ts) <==> h in m || exists i :: 0 <= i < |ts| && ts[i].hash == h
    decreases |ts|
  {
    if ts != [] {
      var m' := Insertar(m, ts[0]);
      var r := InsertarTodas(m, ts);
      InsertarTodasClaves(m', ts[1..]);
      forall h | h in r
        ensures h in m || exists i :: 0 <= i < |ts| && ts[i].hash == h
      {
        if h !in m' {
          var k :| 0 <= k < |ts[1..]| && ts[1..][k].hash == h;
          assert ts[k + 1].hash == h;
        }
      }
      forall h | h in m || exists i :: 0 <= i < |ts| && ts[i].hash == h
        ensures h in r
      {
        if h !in m {
          var k :| 0 <= k < |ts| && ts[k].hash == h;
          if k == 0 {
            assert h in m';
          } else {
            assert ts[1..][k - 1].hash == h;
            assert exists i :: 0 <= i < |ts[1..]| && ts[1..][i].hash == h;
          }
        }
      }
    }
  }

  /** addAll keeps every entry already held. */
  lemma {:induction false} InsertarTodasConserva(m: Indice, ts: seq<Transaccion>, h: Bytes)
    requires h in m
    ensures h in InsertarTodas(m, ts) && InsertarTodas(m, ts)[h] == m[h]
    decreases |ts|
  {
    if ts != [] {
      InsertarTodasConserva(Insertar(m, ts[0]), ts[1..], h);
    }
  }

  /** Under a hash not held before, addAll holds the first listed transaction with that hash. */
  lemma {:induction false} InsertarTodasPrimera(m: Indice, ts: seq<Transaccion>, i: nat)
    requires i < |ts| && ts[i].hash !in m
    requires forall j :: 0 <= j < i ==> ts[j].hash != ts[i].hash
    ensures ts[i].hash in InsertarTodas(m, ts) && InsertarTodas(m, ts)[ts[i].hash] == ts[i]
    decreases i
  {
    if i == 0 {
      InsertarTodasConserva(Insertar(m, ts[0]), ts[1..], ts[0].hash);
    } else {
      assert ts[1..][i - 1] == ts[i];
      forall j | 0 <= j < i - 1
        ensures ts[1..][j].hash != ts[1..][i - 1].hash
      {
        assert ts[1..][j] == ts[j + 1];
      }
      InsertarTodasPrimera(Insertar(m, ts[0]), ts[1..], i - 1);
    }
  }

  /** A list added to an empty pool is contained in it. */
  lemma DesdeListaContiene(ts: seq<Transaccion>)
    ensures Contiene(InsertarTodas(map[], ts), ts)
  {
    InsertarTodasClaves(map[], ts);
  }
}
