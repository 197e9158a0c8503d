/** Byte-addressed memory and little-endian words in it. */
module Words {
  import opened Pages

  /** The `n` low bytes of `v`, least significant first. */
  function Bytes(v: nat, n: nat): (s: seq<byte>)
    ensures |s| == n
  {
    if n == 0 then [] else [v % 256] + Bytes(v / 256, n - 1)
  }

  function Value(s: seq<byte>): nat { if s == [] then 0 else s[0] + 256 * Value(s[1..]) }

  function Pow256(n: nat): nat { if n == 0 then 1 else 256 * Pow256(n - 1) }

  lemma {:induction false} BytesValue(v: nat, n: nat)
    requires v < Pow256(n)
    ensures Value(Bytes(v, n)) == v
  {
    if n > 0 {
      BytesValue(v / 256, n - 1);
      assert Bytes(v, n)[1..] == Bytes(v / 256, n - 1);
    }
  }

  const WORD: nat := 0x1_0000_0000_0000_0000

  lemma WordRange()
    ensures Pow256(8) == WORD
  {
    assert Pow256(4) == 0x1_0000_0000;
  }

  /** Memory that holds zero wherever nothing was stored. */
  type Memory = map<nat, byte>

  function Get(mem: Memory, a: nat): byte { if a in mem then mem[a] else 0 }

  /** Stores the bytes `s` from address `a` up. */
  function Store(mem: Memory, a: nat, s: seq<byte>): Memory
    decreases |s|
  {
    if s == [] then mem else Store(mem[a := s[0]], a + 1, s[1..])
  }

  function Fetch(mem: Memory, a: nat, n: nat): seq<byte> { seq<byte>(n, k requires 0 <= k < n => Get(mem, a + k)) }

  function FetchWord(mem: Memory, a: nat): nat { Value(Fetch(mem, a, 8)) }

  function StoreWord(mem: Memory, a: nat, v: nat): Memory { Store(mem, a, Bytes(v, 8)) }

  function Zeros(n: nat): seq<byte> { seq<byte>(n, _ => 0) }

  lemma {:induction false} StoreGet(mem: Memory, a: nat, s: seq<byte>, x: nat)
    ensures Get(Store(mem, a, s), x) == if a <= x < a + |s| then s[x - a] else Get(mem, x)
    decreases |s|
  {
    if s != [] { StoreGet(mem[a := s[0]], a + 1, s[1..], x); }
  }

  /** What was stored is fetched, and nothing else has changed. */
  lemma StoreFetch(mem: Memory, a: nat, s: seq<byte>)
    ensures Fetch(Store(mem, a, s), a, |s|) == s
    ensures forall x: nat | !(a <= x < a + |s|) :: Get(Store(mem, a, s), x) == Get(mem, x)
  {
    hide Store;
    forall x: nat ensures Get(Store(mem, a, s), x) == if a <= x < a + |s| then s[x - a] else Get(mem, x) {
      StoreGet(mem, a, s, x);
    }
    var f := Fetch(Store(mem, a, s), a, |s|);
    forall k | 0 <= k < |s| ensures f[k] == s[k] { StoreGet(mem, a, s, a + k); }
  }

  lemma StoreFetchWord(mem: Memory, a: nat, v: nat)
    requires v < WORD
    ensures FetchWord(StoreWord(mem, a, v), a) == v
    ensures forall x: nat | !(a <= x < a + 8) :: Get(StoreWord(mem, a, v), x) == Get(mem, x)
  {
    hide Store, Fetch;
    StoreFetch(mem, a, Bytes(v, 8));
    WordRange();
    BytesValue(v, 8);
  }

  lemma FetchSame(mem: Memory, mem': Memory, a: nat, n: nat)
    requires forall x: nat | a <= x < a + n :: Get(mem', x) == Get(mem, x)
    ensures Fetch(mem', a, n) == Fetch(mem, a, n)
  {
    forall k | 0 <= k < n ensures Fetch(mem', a, n)[k] == Fetch(mem, a, n)[k] {
      assert Get(mem', a + k) == Get(mem, a + k);
    }
  }
}
