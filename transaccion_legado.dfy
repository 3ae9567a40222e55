/** The older transaction class (src/estructuras/Transaccion.java), whose content includes the signature. */
module TransaccionesLegado {
  import opened Base

  /** getContenidoTransaccion of the older class, on the field values. */
  function Contenido(c: Cripto, cantidad: int, emisor: Option<Bytes>, destinatario: Option<Bytes>,
                     firma: Option<Bytes>, marcaTemporal: int): Bytes
  {
    c.textoCantidad(cantidad) + Aplanar(emisor) + Aplanar(destinatario) + Aplanar(firma)
      + LongABytes(marcaTemporal)
  }

  class Transaccion {
    var hash: Option<Bytes>
    var emisor: Option<Bytes>
    var destinatario: Option<Bytes>
    var cantidad: int
    var firma: Option<Bytes>
    var marcaTemporal: int

    /** The no-argument constructor: every field null or zero. */
    constructor Vacia()
      ensures hash.None? && emisor.None? && destinatario.None? && firma.None?
      ensures cantidad == 0 && marcaTemporal == 0
    {
      hash, emisor, destinatario, firma := None, None, None, None;
      cantidad, marcaTemporal := 0, 0;
    }

    /** The 4-argument constructor: stamps the time, then stores the computed hash. */
    constructor (c: Cripto, emisor: Option<Bytes>, receptor: Option<Bytes>, cantidad: int,
                 firma: Option<Bytes>, ahora: int)
      ensures this.emisor == emisor && destinatario == receptor && this.cantidad == cantidad
      ensures this.firma == firma && marcaTemporal == ahora
      ensures HashCoherente(c)
    {
      this.emisor := emisor;
      destinatario := receptor;
      this.cantidad := cantidad;
      this.firma := firma;
      marcaTemporal := ahora;
      hash := None;
      new;
      hash := Some(CalcularHashTransaccion(c));
    }

    function ContenidoTransaccion(c: Cripto): Bytes
      reads this
    {
      Contenido(c, cantidad, emisor, destinatario, firma, marcaTemporal)
    }

    function CalcularHashTransaccion(c: Cripto): Bytes
      reads this
    {
      c.sha256(ContenidoTransaccion(c))
    }

    /** The stored hash is the hash of the current content. */
    predicate HashCoherente(c: Cripto)
      reads this
    {
      hash == Some(CalcularHashTransaccion(c))
    }

    // Each setter writes its own field and nothing else; none refreshes the stored hash.

    method SetHash(h: Option<Bytes>)
      modifies this
      ensures hash == h
      ensures emisor == old(emisor) && destinatario == old(destinatario) && cantidad == old(cantidad)
      ensures firma == old(firma) && marcaTemporal == old(marcaTemporal)
    {
      hash := h;
    }

    method SetEmisor(e: Option<Bytes>)
      modifies this
      ensures emisor == e
      ensures hash == old(hash) && destinatario == old(destinatario) && cantidad == old(cantidad)
      ensures firma == old(firma) && marcaTemporal == old(marcaTemporal)
    {
      emisor := e;
    }

    method SetDestinatario(d: Option<Bytes>)
      modifies this
      ensures destinatario == d
      ensures hash == old(hash) && emisor == old(emisor) && cantidad == old(cantidad)
      ensures firma == old(firma) && marcaTemporal == old(marcaTemporal)
    {
      destinatario := d;
    }

    method SetCantidad(x: int)
      modifies this
      ensures cantidad == x
      ensures hash == old(hash) && emisor == old(emisor) && destinatario == old(destinatario)
      ensures firma == old(firma) && marcaTemporal == old(marcaTemporal)
    {
      cantidad := x;
    }

    method SetFirma(f: Option<Bytes>)
      modifies this
      ensures firma == f
      ensures hash == old(hash) && emisor == old(emisor) && destinatario == old(destinatario)
      ensures cantidad == old(cantidad) && marcaTemporal == old(marcaTemporal)
    {
      firma := f;
    }

    method SetMarcaTemporal(m: int)
      modifies this
      ensures marcaTemporal == m
      ensures hash == old(hash) && emisor == old(emisor) && destinatario == old(destinatario)
      ensures cantidad == old(cantidad) && firma == old(firma)
    {
      marcaTemporal := m;
    }

    /** equals: the same object, or another transaction with equal stored hash bytes. */
    predicate Equals(o: Transaccion?)
      reads this, o
    {
      if this == o then true
      else if o == null then false
      else hash == o.hash
    }

    /** hashCode */
    function HashCode(): int
      reads this
    {
      HashCodeArrays(hash)
    }
  }

  // ---------------------------------------------------------------------------
  // Properties

  /**
   * Unlike the newer class, the signature is hashed: with everything else fixed, two signatures
   * give the same content exactly when they contribute the same bytes.
   */
  lemma ContenidoDistingueFirma(c: Cripto, cantidad: int, emisor: Option<Bytes>,
                                destinatario: Option<Bytes>, f1: Option<Bytes>, f2: Option<Bytes>,
                                marcaTemporal: int)
    ensures Contenido(c, cantidad, emisor, destinatario, f1, marcaTemporal)
         == Contenido(c, cantidad, emisor, destinatario, f2, marcaTemporal)
        <==> Aplanar(f1) == Aplanar(f2)
  {
    var p := c.textoCantidad(cantidad) + Aplanar(emisor) + Aplanar(destinatario);
    var s := LongABytes(marcaTemporal);
    var a := Contenido(c, cantidad, emisor, destinatario, f1, marcaTemporal);
    var b := Contenido(c, cantidad, emisor, destinatario, f2, marcaTemporal);
    assert a == p + Aplanar(f1) + s;
    assert b == p + Aplanar(f2) + s;
    if a == b {
      assert |Aplanar(f1)| == |Aplanar(f2)|;
      assert Aplanar(f1) == a[|p|..|a| - 8];
      assert Aplanar(f2) == b[|p|..|b| - 8];
    }
  }

  /**
   * Re-signing a transaction whose hash was coherent leaves it coherent only when the new
   * signature has the same bytes, because SetFirma does not refresh the hash.
   */
  lemma FirmaNuevaDesincroniza(c: Cripto, cantidad: int, emisor: Option<Bytes>,
                               destinatario: Option<Bytes>, f1: Option<Bytes>, f2: Option<Bytes>,
                               marcaTemporal: int)
    requires SinColisiones(c)
    ensures c.sha256(Contenido(c, cantidad, emisor, destinatario, f1, marcaTemporal))
         == c.sha256(Contenido(c, cantidad, emisor, destinatario, f2, marcaTemporal))
        <==> Aplanar(f1) == Aplanar(f2)
  {
    ContenidoDistingueFirma(c, cantidad, emisor, destinatario, f1, f2, marcaTemporal);
  }

  /** Equal transactions have equal hash codes. */
  lemma EqualsHashCode(t: Transaccion, o: Transaccion)
    requires t.Equals(o)
    ensures t.HashCode() == o.HashCode()
  {
  }
}
