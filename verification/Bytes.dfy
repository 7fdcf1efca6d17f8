/** Octets, the machine words the program uses, big-endian words and the readers and writers
    every codec below is built on. */
module Bytes {
  type byte = x: int | 0 <= x < 0x100
  type u8 = x: int | 0 <= x < 0x100
  type u16 = x: int | 0 <= x < 0x1_0000
  type u32 = x: int | 0 <= x < 0x1_0000_0000
  type u64 = x: int | 0 <= x < 0x1_0000_0000_0000_0000

  const TWO64: int := 0x1_0000_0000_0000_0000

  /** Go slices and strings are indexed by a signed 64-bit int. */
  const MAX_LEN: int := 0x7FFF_FFFF_FFFF_FFFF

  /** The signed 64-bit value of an integer, as conversions to int and int arithmetic wrap it. */
  function ToInt(x: int): (r: int)
    ensures -MAX_LEN - 1 <= r <= MAX_LEN
    ensures -MAX_LEN - 1 <= x <= MAX_LEN ==> r == x
  {
    (x + MAX_LEN + 1) % TWO64 - (MAX_LEN + 1)
  }

  datatype Result<+T> = Ok(value: T) | Err

  /** The outcome of code that slices or allocates: a value, an error, or a run-time panic. */
  datatype Outcome<+T> = Value(value: T) | Error | Panic

  /** The outcome of reading one item from a stream: the item and what is left unread, the CBOR
      break code met where an item should start and what is left after it, or any other error. */
  datatype Parse<+T> = Done(value: T, rest: seq<byte>) | Broke(after: seq<byte>) | Failed {
    predicate IsFailure() { !Done? }

    function PropagateFailure<U>(): Parse<U>
      requires IsFailure()
    {
      if Broke? then Broke(after) else Failed
    }

    /** An error that is wrapped in a message of its own is no longer the break code. */
    function Wrapped(): (p: Parse<T>)
      ensures !p.Broke? && (p.Done? <==> this.Done?)
    {
      if Broke? then Failed else this
    }

    function Extract(): (T, seq<byte>)
      requires !IsFailure()
    {
      (value, rest)
    }
  }

  lemma Assoc(a: seq<byte>, b: seq<byte>, c: seq<byte>)
    ensures (a + b) + c == a + (b + c)
  {
  }

  /** A framed list (opening octet, head, body, end) with something after it, without its opening octet. */
  lemma FrameTail(open: byte, x: seq<byte>, y: seq<byte>, z: seq<byte>, rest: seq<byte>)
    ensures var s := [open] + (x + (y + z)) + rest;
            s != [] && s[0] == open && s[1..] == x + (y + (z + rest))
  {
    Assoc(x, y + z, rest);
    Assoc(y, z, rest);
    var t := x + (y + z);
    assert ([open] + t + rest)[1..] == t + rest;
  }

  function Pow256(k: nat): (p: nat)
    ensures p >= 1
  {
    if k == 0 then 1 else 256 * Pow256(k - 1)
  }

  lemma Pow256Words()
    ensures Pow256(1) == 0x100
    ensures Pow256(2) == 0x1_0000
    ensures Pow256(4) == 0x1_0000_0000
    ensures Pow256(8) == 0x1_0000_0000_0000_0000
  {
    assert Pow256(3) == 0x100_0000;
    assert Pow256(5) == 0x100_0000_0000;
    assert Pow256(6) == 0x1_0000_0000_0000;
    assert Pow256(7) == 0x100_0000_0000_0000;
  }

  /** The low k octets of n, most significant first. */
  function PutBE(n: nat, k: nat): (bs: seq<byte>)
    ensures |bs| == k
  {
    if k == 0 then [] else PutBE(n / 256, k - 1) + [n % 256]
  }

  /** The most significant octet comes first: the i-th from the right is the i-th digit to base 256. */
  lemma {:induction false} BigEndian(n: nat, k: nat, i: nat)
    requires i < k
    ensures PutBE(n, k)[k - 1 - i] == n / Pow256(i) % 256
  {
    if i > 0 {
      BigEndian(n / 256, k - 1, i - 1);
      DivTwice(n, Pow256(i - 1));
    }
  }

  lemma DivTwice(n: nat, d: nat)
    requires d >= 1
    ensures n / 256 / d == n / (256 * d)
  {
    var q, r := n / 256 / d, n / 256 % d;
    assert n / 256 == d * q + r;
    assert n == (256 * d) * q + (256 * r + n % 256);
    DivUnique(n, 256 * d, q, 256 * r + n % 256);
  }

  lemma DivUnique(n: nat, d: nat, q: nat, m: nat)
    requires d >= 1 && m < d && n == d * q + m
    ensures n / d == q
  {
    if n / d > q {
      NextMultiple(d, n / d, q);
    } else if n / d < q {
      NextMultiple(d, q, n / d);
    }
  }

  function GetBE(bs: seq<byte>): (n: nat)
    ensures n < Pow256(|bs|)
  {
    if bs == [] then 0 else 256 * GetBE(bs[..|bs| - 1]) + bs[|bs| - 1]
  }

  /** A k-octet word reads back modulo 256^k: writing truncates, nothing else is lost. */
  lemma {:induction false} WordRoundTrip(n: nat, k: nat)
    ensures GetBE(PutBE(n, k)) == n % Pow256(k)
  {
    if k != 0 {
      var bs := PutBE(n, k);
      assert bs[..|bs| - 1] == PutBE(n / 256, k - 1);
      WordRoundTrip(n / 256, k - 1);
      SplitMod(n, Pow256(k - 1));
    }
  }

  lemma SplitMod(n: nat, p: nat)
    requires p >= 1
    ensures n % (256 * p) == 256 * ((n / 256) % p) + n % 256
  {
    var q, r := (n / 256) / p, (n / 256) % p;
    assert n / 256 == p * q + r;
    assert n == (256 * p) * q + (256 * r + n % 256);
    var m := 256 * r + n % 256;
    assert 0 <= m < 256 * p;
    ModUnique(n, 256 * p, q, m);
  }

  lemma ModUnique(n: nat, d: nat, q: nat, m: nat)
    requires d >= 1 && m < d && n == d * q + m
    ensures n % d == m
  {
    var q', m' := n / d, n % d;
    if q > q' {
      NextMultiple(d, q, q');
    } else if q < q' {
      NextMultiple(d, q', q);
    }
  }

  lemma {:induction false} NextMultiple(d: nat, q: nat, q': nat)
    requires q > q'
    ensures d * q >= d * q' + d
    decreases q
  {
    if q - 1 > q' {
      NextMultiple(d, q - 1, q');
    }
    assert d * q == d * (q - 1) + d;
  }

  /** Reading n raw octets, io.ReadFull. */
  function ReadRaw(n: nat, s: seq<byte>): (p: Parse<seq<byte>>)
    ensures p.Done? ==> s == p.value + p.rest
  {
    if n <= |s| then Done(s[..n], s[n..]) else Failed
  }

  /** Reading one big-endian word of k octets, binary.Read. */
  function ReadWord(k: nat, s: seq<byte>): (p: Parse<nat>)
    ensures p.Done? ==> p.value < Pow256(k) && |p.rest| + k == |s|
  {
    if k <= |s| then Done(GetBE(s[..k]), s[k..]) else Failed
  }

  lemma ReadRawWritten(bs: seq<byte>, rest: seq<byte>)
    ensures ReadRaw(|bs|, bs + rest) == Done(bs, rest)
  {
    assert (bs + rest)[..|bs|] == bs;
    assert (bs + rest)[|bs|..] == rest;
  }

  lemma ReadWordWritten(n: nat, k: nat, rest: seq<byte>)
    ensures ReadWord(k, PutBE(n, k) + rest) == Done(n % Pow256(k), rest)
  {
    var bs := PutBE(n, k);
    assert (bs + rest)[..k] == bs;
    assert (bs + rest)[k..] == rest;
    WordRoundTrip(n, k);
  }

  lemma SmallMod(n: nat, p: nat)
    requires n < p
    ensures n % p == n
  {
  }

  lemma ReadWordExact(n: nat, k: nat, rest: seq<byte>)
    requires n < Pow256(k)
    ensures ReadWord(k, PutBE(n, k) + rest) == Done(n, rest)
  {
    ReadWordWritten(n, k, rest);
    SmallMod(n, Pow256(k));
  }
}
