/** The block (commons/estructuras/Bloque.java): header hash, Merkle root, difficulty. */
module Bloques {
  import opened Base
  import opened Transacciones

  /** The hashes of a transaction list, in list order. */
  function Hashes(ts: seq<Transaccion>): seq<Bytes>
  {
    seq(|ts|, i requires 0 <= i < |ts| => ts[i].hash)
  }

  // ---------------------------------------------------------------------------
  // Merkle root: a FIFO reduction

  /**
   * What calcularRaizArbolMerkle leaves in its queue: while two or more hashes are queued, the two
   * at the front are concatenated, hashed and pushed to the back. An empty queue yields null.
   */
  function RaizMerkle(c: Cripto, cola: seq<Bytes>): (r: Option<Bytes>)
    ensures r.Some? <==> |cola| > 0   // a root exactly when there is at least one transaction
    decreases |cola|
  {
    if |cola| == 0 then None
    else if |cola| == 1 then Some(cola[0])
    else RaizMerkle(c, cola[2..] + [c.sha256(cola[0] + cola[1])])
  }

  /**
   * One transaction is its own root; two are hashed together; with three the first two are
   * combined and the third pairs with their hash, in that order.
   */
  lemma RaizMerkleCasosPequenos(c: Cripto, a: Bytes, b: Bytes, d: Bytes)
    ensures RaizMerkle(c, [a]) == Some(a)
    ensures RaizMerkle(c, [a, b]) == Some(c.sha256(a + b))
    ensures RaizMerkle(c, [a, b, d]) == Some(c.sha256(d + c.sha256(a + b)))
  {
    var ab := c.sha256(a + b);
    var dab := c.sha256(d + ab);
    assert [a, b][2..] + [ab] == [ab];
    assert [a, b, d][2..] + [ab] == [d, ab];
    assert [d, ab][2..] + [dab] == [dab];
    calc {
      RaizMerkle(c, [a, b, d]);
      RaizMerkle(c, [d, ab]);
      RaizMerkle(c, [dab]);
    }
  }

  /** One level of a textbook Merkle tree: neighbours hashed pairwise. */
  function Emparejar(c: Cripto, hs: seq<Bytes>): (r: seq<Bytes>)
    requires |hs| % 2 == 0
    ensures |r| == |hs| / 2
  {
    if hs == [] then [] else [c.sha256(hs[0] + hs[1])] + Emparejar(c, hs[2..])
  }

  ghost predicate PotenciaDeDos(n: nat)
  {
    n == 1 || (n > 1 && n % 2 == 0 && PotenciaDeDos(n / 2))
  }

  /** The root of the balanced binary hash tree over 2^k leaves. */
  ghost function ArbolBalanceado(c: Cripto, hs: seq<Bytes>): Bytes
    requires PotenciaDeDos(|hs|)
    decreases |hs|
  {
    if |hs| == 1 then hs[0] else ArbolBalanceado(c, Emparejar(c, hs))
  }

  /** Reducing an even prefix in the queue leaves its pairwise hashes behind the rest. */
  lemma {:induction false} RaizMerkleReduceParejas(c: Cripto, xs: seq<Bytes>, ys: seq<Bytes>)
    requires |xs| % 2 == 0
    ensures RaizMerkle(c, xs + ys) == RaizMerkle(c, ys + Emparejar(c, xs))
    decreases |xs|
  {
    if xs != [] {
      var h := c.sha256(xs[0] + xs[1]);
      assert (xs + ys)[0] == xs[0] && (xs + ys)[1] == xs[1];
      assert (xs + ys)[2..] + [h] == xs[2..] + (ys + [h]);
      assert RaizMerkle(c, xs + ys) == RaizMerkle(c, xs[2..] + (ys + [h]));
      RaizMerkleReduceParejas(c, xs[2..], ys + [h]);
      assert Emparejar(c, xs) == [h] + Emparejar(c, xs[2..]);
      assert (ys + [h]) + Emparejar(c, xs[2..]) == ys + Emparejar(c, xs);
    } else {
      assert xs + ys == ys + Emparejar(c, xs);
    }
  }

  /** For a power-of-two number of transactions the FIFO reduction is the balanced Merkle tree. */
  lemma {:induction false} RaizMerkleEsArbolBalanceado(c: Cripto, hs: seq<Bytes>)
    requires PotenciaDeDos(|hs|)
    ensures RaizMerkle(c, hs) == Some(ArbolBalanceado(c, hs))
    decreases |hs|
  {
    if |hs| > 1 {
      RaizMerkleReduceParejas(c, hs, []);
      assert hs + [] == hs;
      assert [] + Emparejar(c, hs) == Emparejar(c, hs);
      RaizMerkleEsArbolBalanceado(c, Emparejar(c, hs));
    }
  }

  // ---------------------------------------------------------------------------
  // Header hash and difficulty

  /** The bytes calcularHash hashes: previous hash, root, nonce, timestamp; nulls contribute none. */
  function Cabecera(anterior: Option<Bytes>, raiz: Option<Bytes>, nonce: int, timestamp: int): Bytes
  {
    Aplanar(anterior) + Aplanar(raiz) + LongABytes(nonce) + LongABytes(timestamp)
  }

  function HashCabecera(c: Cripto, anterior: Option<Bytes>, raiz: Option<Bytes>, nonce: int,
                        timestamp: int): Bytes
  {
    c.sha256(Cabecera(anterior, raiz, nonce, timestamp))
  }

  /** The header ends in fixed-width fields, so it determines the nonce and the timestamp. */
  lemma CabeceraFijaNonceYTimestamp(anterior: Option<Bytes>, raiz: Option<Bytes>, nonce: int,
                                     timestamp: int)
    requires EsLong(nonce) && EsLong(timestamp)
    ensures var s := Cabecera(anterior, raiz, nonce, timestamp);
      && |s| == |Aplanar(anterior)| + |Aplanar(raiz)| + 16
      && s[..|Aplanar(anterior)|] == Aplanar(anterior)
      && BytesALong(s[|s| - 16..|s| - 8]) == nonce
      && BytesALong(s[|s| - 8..]) == timestamp
  {
    var s := Cabecera(anterior, raiz, nonce, timestamp);
    assert s[|s| - 16..|s| - 8] == LongABytes(nonce);
    assert s[|s| - 8..] == LongABytes(timestamp);
    LongABytesIda(nonce);
    LongABytesIda(timestamp);
  }

  /** The number of leading zero bytes of a hash. */
  function CerosIniciales(h: Bytes): (k: nat)
    ensures k <= |h|
    ensures forall i :: 0 <= i < k ==> h[i] == 0
    ensures k < |h| ==> h[k] != 0
  {
    if h == [] || h[0] != 0 then 0 else 1 + CerosIniciales(h[1..])
  }

  /** The three facts above pin the count down. */
  lemma CerosInicialesUnico(h: Bytes, k: nat)
    requires k <= |h|
    requires forall i :: 0 <= i < k ==> h[i] == 0
    requires k < |h| ==> h[k] != 0
    ensures k == CerosIniciales(h)
  {
  }

  // ---------------------------------------------------------------------------
  // The block

  class Bloque {
    var hash: Bytes
    var hashBloqueAnterior: Option<Bytes>
    var nonce: int
    var timestamp: int
    var raizArbolMerkle: Option<Bytes>
    var transacciones: seq<Transaccion>

    /** The 3-argument constructor: stamps the time, computes the root, then the hash. */
    constructor (c: Cripto, hashBloqueAnterior: Option<Bytes>, transacciones: seq<Transaccion>,
                 nonce: int, ahora: int)
      ensures this.hashBloqueAnterior == hashBloqueAnterior && this.transacciones == transacciones
      ensures this.nonce == nonce && timestamp == ahora
      ensures raizArbolMerkle == RaizMerkle(c, Hashes(transacciones))
      ensures EstructuraValida(c)
    {
      this.hashBloqueAnterior := hashBloqueAnterior;
      this.transacciones := transacciones;
      this.nonce := nonce;
      timestamp := ahora;
      raizArbolMerkle := None;
      hash := [];
      new;
      ghost var combinaciones;
      raizArbolMerkle, combinaciones := CalcularRaizArbolMerkle(c);
      hash := CalcularHash(c);
    }

    /** calcularHash: the header hash of the current fields (transactions enter only via the root). */
    function CalcularHash(c: Cripto): Bytes
      reads this
    {
      HashCabecera(c, hashBloqueAnterior, raizArbolMerkle, nonce, timestamp)
    }

    /** calcularRaizArbolMerkle, with the queue as a sequence. */
    /** Each round takes two hashes and gives back one, so n hashes take n - 1 combinations. */
    method CalcularRaizArbolMerkle(c: Cripto) returns (raiz: Option<Bytes>, ghost combinaciones: nat)
      ensures raiz == RaizMerkle(c, Hashes(transacciones))
      ensures |transacciones| > 0 ==> combinaciones == |transacciones| - 1
      ensures |transacciones| == 0 ==> combinaciones == 0
    {
      var cola := Hashes(transacciones);
      combinaciones := 0;
      while |cola| > 1
        invariant RaizMerkle(c, cola) == RaizMerkle(c, Hashes(transacciones))
        invariant combinaciones + |cola| == |transacciones|
        invariant |transacciones| > 0 ==> |cola| > 0
        decreases |cola|
      {
        var primero := cola[0];
        var segundo := cola[1];
        cola := cola[2..] + [c.sha256(primero + segundo)];
        combinaciones := combinaciones + 1;
      }
      raiz := if |cola| == 0 then None else Some(cola[0]);
    }

    /** getNumeroDeCerosHash: scans for the first non-zero byte. */
    method NumeroDeCerosHash() returns (k: nat)
      ensures k == CerosIniciales(hash)
    {
      var i := 0;
      while i < |hash|
        invariant 0 <= i <= |hash|
        invariant forall j :: 0 <= j < i ==> hash[j] == 0
      {
        if hash[i] != 0 {
          CerosInicialesUnico(hash, i);
          return i;
        }
        i := i + 1;
      }
      CerosInicialesUnico(hash, i);
      return i;
    }

    /** The stored root and the stored hash are the recomputed ones. */
    predicate EstructuraValida(c: Cripto)
      reads this
    {
      raizArbolMerkle == RaizMerkle(c, Hashes(transacciones)) && hash == CalcularHash(c)
    }

    /** esValido: the root is checked first, then the header hash. */
    method EsValido(c: Cripto) returns (ok: bool)
      ensures ok == EstructuraValida(c)
    {
      ghost var combinaciones;
      var raiz;
      raiz, combinaciones := CalcularRaizArbolMerkle(c);
      if raizArbolMerkle != raiz {
        return false;
      }
      if hash != CalcularHash(c) {
        return false;
      }
      return true;
    }

    /** equals: the same object, or another block with equal stored hash bytes. */
    predicate Equals(o: Bloque?)
      reads this, o
    {
      if this == o then true
      else if o == null then false
      else hash == o.hash
    }

    /** hashCode */
    function HashCode(): int
      reads this
    {
      HashCodeArrays(Some(hash))
    }
  }

  /** Equal blocks have equal hash codes. */
  lemma EqualsHashCode(b: Bloque, o: Bloque)
    requires b.Equals(o)
    ensures b.HashCode() == o.HashCode()
  {
  }
}
