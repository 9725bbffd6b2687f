/** Option and Result, shared by every module. */
module Wrappers {
  datatype Option<+T> = None | Some(value: T)

  datatype Result<+T, +E> = Success(value: T) | Failure(error: E)
}

/** The constants and records of kocl/kocl.h that the kernel module and the helper share. */
module KoclTypes {
  const KOCL_NO_SERVICE := 2
  const MAX_QUEUE_NR := 8

  /** The three device classes that kocl/gpuops.c and kocl/main.c tell apart by channel. */
  datatype Device = Default | Second | Third

  function DeviceOf(channel: int): Device {
    if channel == 2 then Second else if channel == 3 then Third else Default
  }

  /** Channels 2 and 3 have devices of their own, and all others share the first. */
  lemma ChannelsApart(c1: int, c2: int)
    ensures DeviceOf(c1) == DeviceOf(c2) <==> c1 == c2 || (c1 !in {2, 3} && c2 !in {2, 3})
    ensures DeviceOf(c1) == Default <==> c1 !in {2, 3}
  {
  }

  /** What a read of the device hands to the helper (the fields the helper acts on). */
  datatype KuRequest = KuRequest(id: int, channel: int)

  /** What the helper writes back. */
  datatype KuResponse = KuResponse(id: int, errcode: int)
}

/** Constants of the kernel that several files use. */
module Kernel {
  const PAGE_SIZE := 4096
  const U32 := 0x1_0000_0000
  const EIO := 5
  const EAGAIN := 11
  const ENOMEM := 12
  const EFAULT := 14
  const EINVAL := 22
  const ENOSYS := 38
  const ENOMSG := 42
  const EOPNOTSUPP := 95
}

/** Unlinking from lists held as sequences. */
module Lists {
  function RemoveAt<T>(s: seq<T>, k: nat): seq<T>
    requires k < |s|
  {
    s[..k] + s[k + 1..]
  }

  /** The list without the first node equal to x. */
  function Without<T(==)>(s: seq<T>, x: T): seq<T> {
    if s == [] then [] else if s[0] == x then s[1..] else [s[0]] + Without(s[1..], x)
  }
}

/** Division by a variable, which the other modules use through these facts. */
module Arithmetic {
  function Pow2(n: nat): (p: nat)
    ensures p >= 1
  {
    if n == 0 then 1 else 2 * Pow2(n - 1)
  }

  /** a & b */
  function BitAnd(a: nat, b: nat): nat {
    if a == 0 || b == 0 then 0
    else 2 * BitAnd(a / 2, b / 2) + (if a % 2 == 1 && b % 2 == 1 then 1 else 0)
  }

  /** ~m of an unsigned int */
  function Not32(m: nat): nat
    requires m <= 0xFFFF_FFFF
  {
    0xFFFF_FFFF - m
  }

  lemma Divided(a: nat, h: nat, p: nat)
    requires p >= 1 && h == a / 2
    ensures a % (2 * p) == 2 * (h % p) + a % 2
  {
    var q, r := h / p, h % p;
    assert h == q * p + r;
    assert a == q * (2 * p) + (2 * r + a % 2);
    Quotient(a, 2 * p, q, 2 * r + a % 2);
  }

  /** The low k bits are the remainder by 2 to the k. */
  lemma {:induction false} LowBits(a: nat, k: nat)
    ensures BitAnd(a, Pow2(k) - 1) == a % Pow2(k)
  {
    if k > 0 {
      var p, h := Pow2(k - 1), a / 2;
      assert (2 * p - 1) / 2 == p - 1 && (2 * p - 1) % 2 == 1;
      LowBits(h, k - 1);
      Divided(a, h, p);
    }
  }

  lemma Scaled(k: int, d: int)
    requires d >= 1
    ensures k >= 1 ==> k * d >= d
    ensures k <= -1 ==> k * d <= -d
  {
  }

  lemma Quotient(x: nat, d: nat, q: int, r: nat)
    requires x == q * d + r && r < d
    ensures x / d == q && x % d == r
  {
    var k := q - x / d;
    assert x == x / d * d + x % d;
    assert k * d == x % d - r;
    Scaled(k, d);
  }

  lemma Multiple(k: int, d: nat)
    requires d >= 1
    ensures k * d % d == 0
  {
    var r := k * d % d;
    assert k * d == k * d / d * d + r;
    assert (k - k * d / d) * d == r;
    Scaled(k - k * d / d, d);
  }

  lemma CeilDiv(n: nat, d: nat)
    requires d >= 1
    ensures n / d + (if n % d != 0 then 1 else 0) == (n + d - 1) / d
  {
    var q, r := n / d, n % d;
    assert n == q * d + r;
    if r == 0 {
      Quotient(n + d - 1, d, q, d - 1);
    } else {
      assert n + d - 1 == (q + 1) * d + (r - 1);
      Quotient(n + d - 1, d, q + 1, r - 1);
    }
  }
}
