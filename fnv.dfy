/** The 32-bit FNV-1a hash (Fowler/Noll/Vo, variant 1a), as computed by Go's
    `fnv.New32a()`: for every input byte, XOR it into the state, then
    multiply the state by the FNV prime modulo 2^32. */
module Fnv {
  import opened Utf8

  const OffsetBasis: bv32 := 2166136261
  const Prime: bv32 := 16777619

  /** One byte of FNV-1a: XOR, then multiply (wrapping at 32 bits). */
  function Step(h: bv32, b: byte): bv32 {
    (h ^ (b as int as bv32)) * Prime
  }

  /** The state after feeding `data` to a hasher in state `h`. */
  function Feed(h: bv32, data: seq<byte>): bv32
    decreases |data|
  {
    if data == [] then h else Feed(Step(h, data[0]), data[1..])
  }

  /** `Sum32()` of a fresh hasher after writing `data`. */
  function Sum32(data: seq<byte>): bv32 {
    Feed(OffsetBasis, data)
  }

  /** Writing `a` and then `b` leaves the hasher in the same state as writing
      `a + b` at once. */
  lemma {:induction false} FeedAppend(h: bv32, a: seq<byte>, b: seq<byte>)
    ensures Feed(h, a + b) == Feed(Feed(h, a), b)
    decreases |a|
  {
    if a == [] {
      assert a + b == b;
    } else {
      assert (a + b)[1..] == a[1..] + b;
      FeedAppend(Step(h, a[0]), a[1..], b);
    }
  }

  /** Published test vectors of FNV-1a 32. */
  lemma TestVectors()
    ensures Sum32([]) == 0x811c9dc5
    ensures Sum32([0x61]) == 0xe40c292c
    ensures Sum32([0x66, 0x6f, 0x6f, 0x62, 0x61, 0x72]) == 0xbf9cf968
  {
    assert Sum32([0x61]) == Feed(Step(OffsetBasis, 0x61), []);
    var foobar: seq<byte> := [0x66, 0x6f, 0x6f, 0x62, 0x61, 0x72];
    assert Step(OffsetBasis, 0x66) == 0xe30c2799;
    assert Step(0xe30c2799, 0x6f) == 0x6222e842;
    assert Step(0x6222e842, 0x6f) == 0xa9f37ed7;
    assert Step(0xa9f37ed7, 0x62) == 0x3f5076ef;
    assert Step(0x3f5076ef, 0x61) == 0x39aaa18a;
    assert Step(0x39aaa18a, 0x72) == 0xbf9cf968;
    calc {
      Sum32(foobar);
      Feed(0xe30c2799, [0x6f, 0x6f, 0x62, 0x61, 0x72]);
      Feed(0x6222e842, [0x6f, 0x62, 0x61, 0x72]);
      Feed(0xa9f37ed7, [0x62, 0x61, 0x72]);
      Feed(0x3f5076ef, [0x61, 0x72]);
      Feed(0x39aaa18a, [0x72]);
      Feed(0xbf9cf968, []);
    }
  }

  /** The hasher loop: start from the offset basis and fold every byte in. */
  method Hash32a(data: seq<byte>) returns (h: bv32)
    ensures h == Sum32(data)
  {
    h := OffsetBasis;
    for i := 0 to |data|
      invariant Feed(h, data[i..]) == Sum32(data)
    {
      assert data[i..][1..] == data[i + 1..];
      h := Step(h, data[i]);
    }
    assert data[|data|..] == [];
  }
}
