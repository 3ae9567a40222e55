/** The chain (commons/estructuras/CadenaDeBloques.java): an append-only list of blocks. */
module Cadena {
  import opened Base
  import opened Bloques
  import opened Saldos

  class CadenaDeBloques {
    /** The blocks, ordered by height. */
    var bloques: seq<Bloque>
    /**
     * The ledger `getSaldos` returns. The class as shown declares no such member; the miner calls
     * it, so it is assumed here to be a ledger the chain owns.
     */
    const saldos: RegistroSaldos

    /** The no-argument constructor: an empty chain. */
    constructor ()
      ensures bloques == [] && fresh(saldos) && saldos.saldos == map[]
    {
      bloques := [];
      saldos := new RegistroSaldos();
    }

    /** The list constructor: the chain adopts the given blocks without checking them. */
    constructor DesdeLista(bloques: seq<Bloque>)
      ensures this.bloques == bloques && fresh(saldos) && saldos.saldos == map[]
    {
      this.bloques := bloques;
      saldos := new RegistroSaldos();
    }

    /** setBloques: replaces the block list. */
    method SetBloques(bloques: seq<Bloque>)
      modifies this
      ensures this.bloques == bloques
    {
      this.bloques := bloques;
    }

    /** estaVacia */
    predicate EstaVacia()
      reads this
    {
      bloques == []
    }

    /** getNumeroBloques: the length of the list, the empty case included. */
    function GetNumeroBloques(): (r: nat)
      reads this
      ensures r == |bloques|
    {
      if EstaVacia() then 0 else |bloques|
    }

    /** getUltimoBloque: the tip, or null on an empty chain. */
    function GetUltimoBloque(): (r: Bloque?)
      reads this
      ensures r == null <==> GetNumeroBloques() == 0
      ensures r != null ==> r == bloques[GetNumeroBloques() - 1]
    {
      if EstaVacia() then null else bloques[|bloques| - 1]
    }

    /** anadirBloque: appends with no validation; the block becomes the tip. */
    method AnadirBloque(b: Bloque)
      modifies this
      ensures bloques == old(bloques) + [b]
      ensures GetUltimoBloque() == b && GetNumeroBloques() == old(GetNumeroBloques()) + 1
    {
      bloques := bloques + [b];
    }

    /**
     * equals: the same object, or another chain of the same length holding the very same block
     * objects at every position.
     */
    method Equals(o: CadenaDeBloques?) returns (r: bool)
      ensures r <==> o != null && bloques == o.bloques
    {
      if this == o {
        return true;
      }
      if o == null {
        return false;
      }
      if |bloques| != |o.bloques| {
        return false;
      }
      var i := 0;
      while i < |bloques|
        invariant 0 <= i <= |bloques|
        invariant bloques[..i] == o.bloques[..i]
      {
        if bloques[i] != o.bloques[i] {
          return false;
        }
        i := i + 1;
      }
      assert bloques == bloques[..i] && o.bloques == o.bloques[..i];
      return true;
    }
  }
}
