/** Bytes, Java's fixed-width encodings and the library primitives the node calls. */
module Base {

  newtype Byte = b: int | 0 <= b < 256
  type Bytes = seq<Byte>

  datatype Option<+T> = None | Some(value: T)

  /** The bytes an array contributes to `ArrayUtils.addAll`: a null array contributes none. */
  function Aplanar(o: Option<Bytes>): Bytes
  {
    match o
    case None => []
    case Some(bs) => bs
  }

  /**
   * The library calls the node makes, left uninterpreted: any functions of these types may be
   * plugged in.
   *  - sha256: `DigestUtils.sha256` (SHA-256, FIPS 180-4);
   *  - verificarFirma(info, firma, clavePublica): `UtilidadesFirma.validarFirma` (SHA1withDSA);
   *  - textoCantidad: `String.valueOf(double).getBytes()` of an amount;
   *  - base64: `Base64.encodeBase64String` (section 4 of RFC 4648).
   */
  datatype Cripto = Cripto(
    sha256: Bytes -> Bytes,
    verificarFirma: (Bytes, Bytes, Bytes) -> bool,
    textoCantidad: int -> Bytes,
    base64: Bytes -> string)

  /** Base64 is an injective encoding: distinct keys have distinct texts. */
  ghost predicate Base64Inyectiva(c: Cripto)
  {
    forall a: Bytes, b: Bytes :: c.base64(a) == c.base64(b) ==> a == b
  }

  /** The idealisation of SHA-256 as collision-free, used only where a lemma says so. */
  ghost predicate SinColisiones(c: Cripto)
  {
    forall a: Bytes, b: Bytes :: c.sha256(a) == c.sha256(b) ==> a == b
  }

  /** The node's configuration file: the settings the core reads. */
  datatype Configuracion = Configuracion(
    maxTransaccionesEnBloque: int,
    dificultad: int,
    coinbase: Bytes,          // the reward key, already Base64-decoded
    cantidadCoinbase: int)    // the reward amount

  // ---------------------------------------------------------------------------
  // Longs.toByteArray / Longs.fromByteArray

  const DosA64: int := 0x1_0000_0000_0000_0000
  const DosA63: int := 0x8000_0000_0000_0000

  /** The range of a Java `long`. */
  predicate EsLong(x: int)
  {
    -DosA63 <= x < DosA63
  }

  function Pot256(n: nat): (r: nat)
    ensures r > 0
  {
    if n == 0 then 1 else 256 * Pot256(n - 1)
  }

  /** The n low-order base-256 digits of u, most significant first. */
  function BigEndian(u: nat, n: nat): (r: Bytes)
    ensures |r| == n
  {
    if n == 0 then [] else BigEndian(u / 256, n - 1) + [(u % 256) as Byte]
  }

  /** The unsigned number a big-endian byte string denotes. */
  function DeBigEndian(s: Bytes): nat
  {
    if s == [] then 0 else DeBigEndian(s[..|s| - 1]) * 256 + s[|s| - 1] as nat
  }

  /** Dropping the last digit divides by 256. */
  lemma CocienteMenor(u: nat, n: nat)
    requires n > 0 && u < Pot256(n)
    ensures u / 256 < Pot256(n - 1)
  {
  }

  lemma {:induction false} DeBigEndianDeBigEndian(u: nat, n: nat)
    requires u < Pot256(n)
    ensures DeBigEndian(BigEndian(u, n)) == u
  {
    if n > 0 {
      var s := BigEndian(u, n);
      assert s[..n - 1] == BigEndian(u / 256, n - 1);
      CocienteMenor(u, n);
      DeBigEndianDeBigEndian(u / 256, n - 1);
    }
  }

  /** `Longs.toByteArray`: the 64-bit two's complement of x, most significant byte first. */
  function LongABytes(x: int): (r: Bytes)
    ensures |r| == 8
  {
    BigEndian(x % DosA64, 8)
  }

  /** `Longs.fromByteArray` on eight bytes. */
  function BytesALong(s: Bytes): int
  {
    var u := DeBigEndian(s);
    if u >= DosA63 then u - DosA64 else u
  }

  /** A Java `long` arithmetic result: x reduced to 64-bit two's complement. */
  function Int64(x: int): (r: int)
    ensures EsLong(r)
    ensures (x - r) % DosA64 == 0
  {
    var m := x % DosA64;
    if m >= DosA63 then m - DosA64 else m
  }

  /** Incrementing a `long` wraps around: the k-th successor of 0 is k reduced to 64 bits. */
  lemma Int64Sucesor(x: int)
    ensures Int64(Int64(x) + 1) == Int64(x + 1)
  {
    var r := Int64(x);
    assert (x + 1) - (r + 1) == x - r;
    assert (r + 1) % DosA64 == (x + 1) % DosA64;
  }

  /** The eight bytes of a `long` give the `long` back, so the encoding is injective. */
  lemma LongABytesIda(x: int)
    requires EsLong(x)
    ensures BytesALong(LongABytes(x)) == x
  {
    assert Pot256(8) == DosA64;
    DeBigEndianDeBigEndian(x % DosA64, 8);
  }

  lemma LongABytesInyectiva(x: int, y: int)
    requires EsLong(x) && EsLong(y)
    ensures LongABytes(x) == LongABytes(y) <==> x == y
  {
    if LongABytes(x) == LongABytes(y) {
      LongABytesIda(x);
      LongABytesIda(y);
    }
  }

  // ---------------------------------------------------------------------------
  // Arrays.hashCode(byte[])

  const DosA32: int := 0x1_0000_0000
  const DosA31: int := 0x8000_0000

  /** A Java `int` arithmetic result: x reduced to 32-bit two's complement. */
  function Int32(x: int): (r: int)
    ensures -DosA31 <= r < DosA31
    ensures (x - r) % DosA32 == 0
  {
    var m := x % DosA32;
    if m >= DosA31 then m - DosA32 else m
  }

  /** The value of a byte as Java's signed `byte`. */
  function ConSigno(b: Byte): int
  {
    if b < 128 then b as int else b as int - 256
  }

  /** `Arrays.hashCode(byte[])`; a null array hashes to 0. */
  function HashCodeArrays(o: Option<Bytes>): (r: int)
    ensures -DosA31 <= r < DosA31
  {
    match o
    case None => 0
    case Some(bs) => HashCodeBytes(bs)
  }

  function HashCodeBytes(bs: Bytes): (r: int)
    ensures -DosA31 <= r < DosA31
  {
    if bs == [] then 1 else Int32(31 * HashCodeBytes(bs[..|bs| - 1]) + ConSigno(bs[|bs| - 1]))
  }
}
