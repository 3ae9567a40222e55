/** The node's transaction (commons/estructuras/Transaccion.java). */
module Transacciones {
  import opened Base

  /**
   * A signed transfer of `cantidad` from `emisor` to `destinatario`, or a coinbase reward when
   * `esCoinbase` holds. A null key or signature is `None`. Transactions are values: the ones the
   * node holds are never changed once built.
   */
  datatype Transaccion = Transaccion(
    hash: Bytes,
    emisor: Option<Bytes>,
    destinatario: Option<Bytes>,
    cantidad: int,
    firma: Option<Bytes>,
    timestamp: int,
    esCoinbase: bool)

  /** getContenidoTransaccion: the bytes that are hashed and signed. */
  function ContenidoTransaccion(c: Cripto, t: Transaccion): Bytes
  {
    c.textoCantidad(t.cantidad) + Aplanar(t.emisor) + Aplanar(t.destinatario) + LongABytes(t.timestamp)
  }

  /** calcularHashTransaccion */
  function CalcularHashTransaccion(c: Cripto, t: Transaccion): Bytes
  {
    c.sha256(ContenidoTransaccion(c, t))
  }

  /** The 4-argument constructor: stamps the time and stores the freshly computed hash. */
  function NuevaTransaccion(c: Cripto, emisor: Option<Bytes>, receptor: Option<Bytes>,
                            cantidad: int, firma: Option<Bytes>, ahora: int): (t: Transaccion)
    ensures t.emisor == emisor && t.destinatario == receptor && t.cantidad == cantidad
    ensures t.firma == firma && t.timestamp == ahora && !t.esCoinbase
    ensures t.hash == CalcularHashTransaccion(c, t)
  {
    var sinHash := Transaccion([], emisor, receptor, cantidad, firma, ahora, false);
    sinHash.(hash := CalcularHashTransaccion(c, sinHash))
  }

  /**
   * The signature check of esValida. `validarFirma` throws on a null key and fails on a null
   * signature; both end in `false`.
   */
  predicate FirmaVerifica(c: Cripto, t: Transaccion)
  {
    t.emisor.Some? && t.firma.Some? &&
    c.verificarFirma(ContenidoTransaccion(c, t), t.firma.value, t.emisor.value)
  }

  /** esValida: the stored hash is the recomputed one, then the signature verifies. */
  predicate EsValida(c: Cripto, t: Transaccion)
    ensures EsValida(c, t) ==> t.emisor.Some? && t.firma.Some? && t.hash == CalcularHashTransaccion(c, t)
  {
    if t.hash != CalcularHashTransaccion(c, t) then false
    else FirmaVerifica(c, t)
  }

  /** equals: two transactions are the same transaction when their stored hashes are equal. */
  predicate Equals(t: Transaccion, o: Transaccion)
  {
    t.hash == o.hash
  }

  /** hashCode */
  function HashCode(t: Transaccion): int
  {
    HashCodeArrays(Some(t.hash))
  }

  // ---------------------------------------------------------------------------
  // Properties

  /** The content is amount text, sender, recipient, then the 8 timestamp bytes, in that order. */
  lemma ContenidoPorPartes(c: Cripto, t: Transaccion)
    requires EsLong(t.timestamp)
    ensures var s := ContenidoTransaccion(c, t);
      var n := |c.textoCantidad(t.cantidad)|;
      var e := |Aplanar(t.emisor)|;
      var d := |Aplanar(t.destinatario)|;
      && |s| == n + e + d + 8
      && s[..n] == c.textoCantidad(t.cantidad)
      && s[n..n + e] == Aplanar(t.emisor)
      && s[n + e..n + e + d] == Aplanar(t.destinatario)
      && BytesALong(s[n + e + d..]) == t.timestamp
  {
    var s := ContenidoTransaccion(c, t);
    var n := |c.textoCantidad(t.cantidad)|;
    var e := |Aplanar(t.emisor)|;
    var d := |Aplanar(t.destinatario)|;
    assert s[n + e + d..] == LongABytes(t.timestamp);
    LongABytesIda(t.timestamp);
  }

  /** Neither the signature nor the stored hash is part of the content, nor is the coinbase flag. */
  lemma HashIgnoraFirma(c: Cripto, t: Transaccion, firma: Option<Bytes>, hash: Bytes, esCoinbase: bool)
    ensures CalcularHashTransaccion(c, t.(firma := firma, hash := hash, esCoinbase := esCoinbase))
         == CalcularHashTransaccion(c, t)
  {
  }

  /** A freshly built transaction is valid exactly when its signature verifies. */
  lemma NuevaTransaccionValida(c: Cripto, emisor: Option<Bytes>, receptor: Option<Bytes>,
                               cantidad: int, firma: Option<Bytes>, ahora: int)
    ensures var t := NuevaTransaccion(c, emisor, receptor, cantidad, firma, ahora);
      EsValida(c, t) <==>
        emisor.Some? && firma.Some? && c.verificarFirma(ContenidoTransaccion(c, t), firma.value, emisor.value)
  {
  }

  /** esValida fails whenever the stored hash differs from the recomputed one. */
  lemma HashAlteradoInvalida(c: Cripto, t: Transaccion, h: Bytes)
    requires h != CalcularHashTransaccion(c, t)
    ensures !EsValida(c, t.(hash := h))
  {
    HashIgnoraFirma(c, t, t.firma, h, t.esCoinbase);
  }

  /**
   * No other field is checked: a signed transfer of a negative amount, or one without recipient,
   * is valid as soon as its signature verifies.
   */
  lemma CantidadNoSeComprueba(c: Cripto, emisor: Bytes, receptor: Option<Bytes>, cantidad: int,
                              firma: Bytes, ahora: int)
    requires var t := NuevaTransaccion(c, Some(emisor), receptor, cantidad, Some(firma), ahora);
      c.verificarFirma(ContenidoTransaccion(c, t), firma, emisor)
    ensures EsValida(c, NuevaTransaccion(c, Some(emisor), receptor, cantidad, Some(firma), ahora))
  {
  }

  /**
   * The content does not delimit sender from recipient, so moving a byte across the boundary
   * gives a different transaction with the same hash, which equals the first one.
   */
  lemma FronteraAmbigua(c: Cripto, cantidad: int, firma: Option<Bytes>, ahora: int)
    ensures var t1 := NuevaTransaccion(c, Some([1]), Some([2, 3]), cantidad, firma, ahora);
      var t2 := NuevaTransaccion(c, Some([1, 2]), Some([3]), cantidad, firma, ahora);
      t1 != t2 && Equals(t1, t2)
  {
    var t1 := NuevaTransaccion(c, Some([1]), Some([2, 3]), cantidad, firma, ahora);
    var t2 := NuevaTransaccion(c, Some([1, 2]), Some([3]), cantidad, firma, ahora);
    assert [1 as Byte] + [2, 3] == [1 as Byte, 2] + [3];
    assert ContenidoTransaccion(c, t1) == ContenidoTransaccion(c, t2);
    assert t1.emisor != t2.emisor;
  }

  /** Equal transactions have equal hash codes. */
  lemma EqualsHashCode(t: Transaccion, o: Transaccion)
    requires Equals(t, o)
    ensures HashCode(t) == HashCode(o)
  {
  }
}
