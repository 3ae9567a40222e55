/** The balance ledger (commons/estructuras/RegistroSaldos.java). */
module Saldos {
  import opened Base
  import opened Transacciones

  /** A ledger table: an account's Base64 key text to its balance. */
  type Tabla = map<string, int>

  /** The balance an absent account reads as: zero. */
  function Saldo(m: Tabla, cuenta: string): int
  {
    if cuenta in m then m[cuenta] else 0
  }

  /** The table after adding `delta` to an account, creating it if absent. */
  function Acreditar(m: Tabla, cuenta: string, delta: int): Tabla
  {
    m[cuenta := Saldo(m, cuenta) + delta]
  }

  // ---------------------------------------------------------------------------
  // Settlement

  /** Why liquidarTransaccion throws: no funds, or a null key reaching the table (a NullPointerException). */
  datatype ErrorLiquidacion = SaldoInsuficiente | ClaveNula

  /** The table a settlement leaves, and the exception it throws, if any. */
  datatype Efecto = Efecto(saldos: Tabla, error: Option<ErrorLiquidacion>)

  /**
   * liquidarTransaccion on a table: a coinbase credits the recipient; a transfer with enough
   * funds debits the sender and then credits the recipient, and is refused otherwise. A null key
   * fails when it is looked up, after whatever was already written.
   */
  function Liquidacion(c: Cripto, m: Tabla, t: Transaccion): Efecto
  {
    if t.esCoinbase then
      match t.destinatario
      case None => Efecto(m, Some(ClaveNula))
      case Some(d) => Efecto(Acreditar(m, c.base64(d), t.cantidad), None)
    else
      match t.emisor
      case None => Efecto(m, Some(ClaveNula))
      case Some(e) =>
        if Saldo(m, c.base64(e)) >= t.cantidad then
          var debitado := Acreditar(m, c.base64(e), -t.cantidad);
          match t.destinatario
          case None => Efecto(debitado, Some(ClaveNula))
          case Some(d) => Efecto(Acreditar(debitado, c.base64(d), t.cantidad), None)
        else
          Efecto(m, Some(SaldoInsuficiente))
  }

  // ---------------------------------------------------------------------------
  // The class

  class RegistroSaldos {
    var saldos: Tabla

    constructor ()
      ensures saldos == map[]
    {
      saldos := map[];
    }

    /** getSaldoCuenta: the stored balance, or 0 for a key with no entry. */
    function GetSaldoCuenta(c: Cripto, clavePublica: Bytes): (r: int)
      reads this
      ensures ExisteCuenta(c, clavePublica) ==> r == saldos[c.base64(clavePublica)]
      ensures !ExisteCuenta(c, clavePublica) ==> r == 0
    {
      Saldo(saldos, c.base64(clavePublica))
    }

    /** existeCuenta: the key has an entry, whatever its balance. */
    predicate ExisteCuenta(c: Cripto, cuenta: Bytes)
      reads this
    {
      c.base64(cuenta) in saldos
    }

    /** setSaldoCuenta: overwrites one entry, creating it if absent. */
    method SetSaldoCuenta(c: Cripto, clavePublica: Bytes, saldo: int)
      modifies this
      ensures saldos == old(saldos)[c.base64(clavePublica) := saldo]
      ensures ExisteCuenta(c, clavePublica) && GetSaldoCuenta(c, clavePublica) == saldo
    {
      saldos := saldos[c.base64(clavePublica) := saldo];
    }

    /** anadeSaldoACuenta: the old balance, or zero, plus `saldo`. */
    method AnadeSaldoACuenta(c: Cripto, clavePublica: Bytes, saldo: int)
      modifies this
      ensures saldos == Acreditar(old(saldos), c.base64(clavePublica), saldo)
      ensures ExisteCuenta(c, clavePublica)
      ensures GetSaldoCuenta(c, clavePublica) == old(GetSaldoCuenta(c, clavePublica)) + saldo
    {
      saldos := saldos[c.base64(clavePublica) := GetSaldoCuenta(c, clavePublica) + saldo];
    }

    /** liquidarTransaccion; the exception it throws is returned. */
    method LiquidarTransaccion(c: Cripto, t: Transaccion) returns (error: Option<ErrorLiquidacion>)
      modifies this
      ensures Efecto(saldos, error) == Liquidacion(c, old(saldos), t)
    {
      if t.esCoinbase {
        if t.destinatario.None? {
          return Some(ClaveNula);
        }
        AnadeSaldoACuenta(c, t.destinatario.value, t.cantidad);
      } else {
        if t.emisor.None? {
          return Some(ClaveNula);
        }
        if GetSaldoCuenta(c, t.emisor.value) >= t.cantidad {
          AnadeSaldoACuenta(c, t.emisor.value, -t.cantidad);
          if t.destinatario.None? {
            return Some(ClaveNula);
          }
          AnadeSaldoACuenta(c, t.destinatario.value, t.cantidad);
        } else {
          return Some(SaldoInsuficiente);
        }
      }
      return None;
    }
  }

  // ---------------------------------------------------------------------------
  // Money

  /** The sum of all balances. */
  ghost function Total(m: Tabla): int
    decreases |m.Keys|
  {
    if m == map[] then 0
    else
      var k :| k in m;
      assert |(m - {k}).Keys| < |m.Keys| by { assert (m - {k}).Keys == m.Keys - {k}; }
      m[k] + Total(m - {k})
  }

  /** Any account can be taken out of the sum first. */
  lemma {:induction false} TotalSinCuenta(m: Tabla, k: string)
    requires k in m
    ensures Total(m) == m[k] + Total(m - {k})
    decreases |m.Keys|
  {
    var j :| j in m && Total(m) == m[j] + Total(m - {j});
    if j != k {
      assert (m - {j}).Keys == m.Keys - {j};
      assert (m - {k}).Keys == m.Keys - {k};
      TotalSinCuenta(m - {j}, k);
      TotalSinCuenta(m - {k}, j);
      assert m - {j} - {k} == m - {k} - {j};
    }
  }

  /** Crediting `delta` adds exactly `delta` to the sum. */
  lemma TotalAcreditar(m: Tabla, k: string, delta: int)
    ensures Total(Acreditar(m, k, delta)) == Total(m) + delta
  {
    var r := Acreditar(m, k, delta);
    TotalSinCuenta(r, k);
    assert r - {k} == m - {k};
    if k in m {
      TotalSinCuenta(m, k);
    } else {
      assert m - {k} == m;
    }
  }

  /** A coinbase credits the recipient by the amount and changes no other account. */
  lemma LiquidacionCoinbase(c: Cripto, m: Tabla, t: Transaccion)
    requires t.esCoinbase && t.destinatario.Some?
    ensures var r := Liquidacion(c, m, t);
      var d := c.base64(t.destinatario.value);
      && r.error == None
      && Saldo(r.saldos, d) == Saldo(m, d) + t.cantidad
      && (forall k :: k != d ==> Saldo(r.saldos, k) == Saldo(m, k))
      && Total(r.saldos) == Total(m) + t.cantidad
  {
    TotalAcreditar(m, c.base64(t.destinatario.value), t.cantidad);
  }

  /**
   * A transfer the sender can cover moves the amount from sender to recipient: the sum of all
   * balances is unchanged and the sender does not go below zero.
   */
  lemma LiquidacionConserva(c: Cripto, m: Tabla, t: Transaccion)
    requires !t.esCoinbase && t.emisor.Some? && t.destinatario.Some?
    requires Saldo(m, c.base64(t.emisor.value)) >= t.cantidad
    ensures var r := Liquidacion(c, m, t);
      var e := c.base64(t.emisor.value);
      var d := c.base64(t.destinatario.value);
      && r.error == None
      && Total(r.saldos) == Total(m)
      && (e != d ==> Saldo(r.saldos, e) == Saldo(m, e) - t.cantidad >= 0)
      && (e != d ==> Saldo(r.saldos, d) == Saldo(m, d) + t.cantidad)
      && (e == d ==> Saldo(r.saldos, e) == Saldo(m, e))
      && (forall k :: k != e && k != d ==> Saldo(r.saldos, k) == Saldo(m, k))
  {
    var e := c.base64(t.emisor.value);
    var d := c.base64(t.destinatario.value);
    var debitado := Acreditar(m, e, -t.cantidad);
    TotalAcreditar(m, e, -t.cantidad);
    TotalAcreditar(debitado, d, t.cantidad);
  }

  /** A transfer the sender cannot cover throws and leaves the table as it was. */
  lemma LiquidacionSinFondos(c: Cripto, m: Tabla, t: Transaccion)
    requires !t.esCoinbase && t.emisor.Some?
    requires Saldo(m, c.base64(t.emisor.value)) < t.cantidad
    ensures Liquidacion(c, m, t) == Efecto(m, Some(SaldoInsuficiente))
  {
  }

  /**
   * Settlement is not atomic: a covered transfer without recipient throws after the sender has
   * been debited.
   */
  lemma LiquidacionParcial(c: Cripto, m: Tabla, t: Transaccion)
    requires !t.esCoinbase && t.emisor.Some? && t.destinatario.None?
    requires Saldo(m, c.base64(t.emisor.value)) >= t.cantidad
    ensures var r := Liquidacion(c, m, t);
      && r.error == Some(ClaveNula)
      && Saldo(r.saldos, c.base64(t.emisor.value)) == Saldo(m, c.base64(t.emisor.value)) - t.cantidad
      && Total(r.saldos) == Total(m) - t.cantidad
  {
    TotalAcreditar(m, c.base64(t.emisor.value), -t.cantidad);
  }

  /** No balance is below zero. */
  ghost predicate SinNegativos(m: Tabla)
  {
    forall k :: k in m ==> m[k] >= 0
  }

  /** No balance goes negative when every balance starts non-negative and the amount is too. */
  lemma LiquidacionSinNegativos(c: Cripto, m: Tabla, t: Transaccion)
    requires SinNegativos(m)
    requires t.cantidad >= 0
    ensures SinNegativos(Liquidacion(c, m, t).saldos)
  {
  }

  /**
   * As written no amount is checked for sign: a negative transfer passes the funds check and
   * leaves its recipient below zero.
   */
  lemma LiquidacionCantidadNegativa(c: Cripto, t: Transaccion)
    requires Base64Inyectiva(c)
    requires !t.esCoinbase && t.emisor.Some? && t.destinatario.Some?
    requires t.emisor.value != t.destinatario.value && t.cantidad < 0
    ensures var r := Liquidacion(c, map[], t);
      r.error == None && Saldo(r.saldos, c.base64(t.destinatario.value)) < 0
  {
  }

  /** Accounts are Base64 texts of keys; as the encoding is injective, distinct keys never share a balance. */
  lemma CuentasPorClave(c: Cripto, m: Tabla, k1: Bytes, k2: Bytes, saldo: int)
    requires Base64Inyectiva(c)
    ensures k1 != k2 ==> Saldo(m[c.base64(k1) := saldo], c.base64(k2)) == Saldo(m, c.base64(k2))
    ensures k1 == k2 ==> Saldo(m[c.base64(k1) := saldo], c.base64(k2)) == saldo
  {
  }
}
