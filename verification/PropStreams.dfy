/** The byte streams of the file loader: numbers are written lowest byte first, and reading past the
    end fails without moving. */
module PropStreams {

  type Byte = x: int | 0 <= x < 256

  function Pow256(n: nat): (r: nat)
    ensures r >= 1
  {
    if n == 0 then 1 else 256 * Pow256(n - 1)
  }

  /** The n bytes of x, lowest first. */
  function Le(x: nat, n: nat): (s: seq<Byte>)
    ensures |s| == n
  {
    if n == 0 then [] else [x % 256] + Le(x / 256, n - 1)
  }

  function ValueOf(s: seq<Byte>): nat {
    if s == [] then 0 else s[0] + 256 * ValueOf(s[1..])
  }

  /** A number that fits is read back as it was written. */
  lemma {:induction false} ValueOfLe(x: nat, n: nat)
    requires x < Pow256(n)
    ensures ValueOf(Le(x, n)) == x
  {
    if n > 0 {
      assert Le(x, n)[1..] == Le(x / 256, n - 1);
      ValueOfLe(x / 256, n - 1);
    }
  }

  lemma SmallPowers()
    ensures Pow256(1) == 256 && Pow256(2) == 0x1_0000 && Pow256(4) == 0x1_0000_0000
  {
    assert Pow256(0) == 1;
    assert Pow256(1) == 256 * Pow256(0);
    assert Pow256(2) == 256 * Pow256(1);
    assert Pow256(3) == 256 * Pow256(2);
  }

  /** The longest string that is written; a longer one is replaced by the empty one. */
  const MAX_STRING := 0xFFFF

  /** What `writeString` puts into the stream. */
  function StringBytes(s: seq<Byte>): seq<Byte> {
    if |s| > MAX_STRING then Le(0, 2) else Le(|s|, 2) + s
  }

  class PropWriteStream {
    var buffer: seq<Byte>

    constructor ()
      ensures buffer == []
    {
      buffer := [];
    }

    /** `write<T>` for a T of the given size */
    method Write(x: nat, size: nat)
      modifies this
      ensures buffer == old(buffer) + Le(x, size)
    {
      buffer := buffer + Le(x, size);
    }

    method WriteBytes(s: seq<Byte>)
      modifies this
      ensures buffer == old(buffer) + s
    {
      buffer := buffer + s;
    }

    method WriteString(s: seq<Byte>)
      modifies this
      ensures buffer == old(buffer) + StringBytes(s)
    {
      if |s| > MAX_STRING {
        Write(0, 2);
        return;
      }
      Write(|s|, 2);
      buffer := buffer + s;
    }
  }

  class PropStream {
    const data: seq<Byte>
    var p: nat

    constructor (data: seq<Byte>)
      ensures this.data == data && p == 0
    {
      this.data, p := data, 0;
    }

    ghost predicate Valid()
      reads this
    {
      p <= |data|
    }

    /** The bytes not read yet. */
    ghost function Rest(): (s: seq<Byte>)
      requires Valid()
      reads this
    {
      data[p..]
    }

    /** `read<T>` for a T of the given size; also `skip`. */
    method Read(size: nat) returns (ok: bool, value: nat)
      requires Valid()
      modifies this
      ensures Valid()
      ensures ok <==> size <= |old(Rest())|
      ensures ok ==> value == ValueOf(old(Rest())[..size]) && Rest() == old(Rest())[size..]
      ensures !ok ==> Rest() == old(Rest())
    {
      if |data| - p < size { return false, 0; }
      assert data[p..][..size] == data[p..p + size];
      value := ValueOf(data[p..p + size]);
      p := p + size;
      ok := true;
    }

    /** The next bytes as they are. */
    method ReadBytes(size: nat) returns (ok: bool, bytes: seq<Byte>)
      requires Valid()
      modifies this
      ensures Valid()
      ensures ok <==> size <= |old(Rest())|
      ensures ok ==> bytes == old(Rest())[..size] && Rest() == old(Rest())[size..]
      ensures !ok ==> Rest() == old(Rest())
    {
      if |data| - p < size { return false, []; }
      bytes := data[p..p + size];
      assert data[p..][..size] == bytes;
      p := p + size;
      ok := true;
    }
  }
}
