/** The NTP packet codec: milliseconds to 32.32 fixed-point timestamps and back, and the 48-byte
    request and response packets (sections 6 and 7.3 of RFC 5905). */
module NtpWire {
  import opened Base

  newtype byte = x: int | 0 <= x < 256

  const EPOCH_DELTA: nat := 2_208_988_800
  const TWO32: nat := 0x1_0000_0000
  const PACKET_LEN: nat := 48

  /** The first millisecond whose second number does not fit in 32 bits. */
  const ERA_END: nat := 2_085_978_496_000

  datatype Timestamp = Timestamp(seconds: nat, fraction: nat)

  predicate IsTimestamp(t: Timestamp) {
    t.seconds < TWO32 && t.fraction < TWO32
  }

  // ---- Conversions ----

  /** Negative times are cut to the Unix epoch; the seconds wrap at 32 bits. */
  function FromUnixMs(ms: int): (t: Timestamp)
    ensures IsTimestamp(t)
  {
    var m := Max(ms, 0);
    Timestamp((m / 1000 + EPOCH_DELTA) % TWO32, m % 1000 * TWO32 / 1000)
  }

  function ToUnixMs(t: Timestamp): int {
    (t.seconds - EPOCH_DELTA) * 1000 + t.fraction * 1000 / TWO32
  }

  lemma DivideShort(x: nat, m: nat, rest: nat)
    requires x == m * TWO32 - rest && rest < TWO32
    ensures x / TWO32 == if rest == 0 then m else m - 1
  {
    if rest != 0 {
      assert x == (m - 1) * TWO32 + (TWO32 - rest);
    }
  }

  /** What a millisecond of a second becomes after a trip through the fraction field. */
  lemma FractionRoundTrip(m: nat)
    requires m < 1000
    ensures (m * TWO32 / 1000) * 1000 / TWO32 == if m % 125 == 0 then m else m - 1
  {
    var f, rest := m * TWO32 / 1000, m * TWO32 % 1000;
    if m % 125 == 0 {
      assert m * TWO32 == 1000 * (m / 125 * 536_870_912);
    } else if rest == 0 {
      RemainderIsZeroOnlyAtMultiples(m);
      assert false;
    }
    DivideShort(f * 1000, m, rest);
  }

  lemma RemainderIsZeroOnlyAtMultiples(m: nat)
    requires m * TWO32 % 1000 == 0
    ensures m % 125 == 0
  {
    // 4294967296 = 34359738 * 125 + 46, and 46 * 106 = 39 * 125 + 1.
    var q := m * TWO32 / 1000;
    assert 46 * m == 125 * (8 * q - 34_359_738 * m);
    assert m == 125 * (106 * (8 * q - 34_359_738 * m) - 39 * m);
  }

  /** A time before the era ends comes back as itself exactly when its millisecond part is a multiple of
      125, and as one less otherwise. */
  lemma RoundTrip(ms: nat)
    requires ms < ERA_END
    ensures ToUnixMs(FromUnixMs(ms)) == if ms % 1000 % 125 == 0 then ms else ms - 1
  {
    FractionRoundTrip(ms % 1000);
    assert (ms / 1000 + EPOCH_DELTA) % TWO32 == ms / 1000 + EPOCH_DELTA;
  }

  /** The codec is accurate to a millisecond exactly on the times from one millisecond before the Unix
      epoch to the end of the era. */
  lemma AccurateExactly(ms: int)
    ensures Abs(ToUnixMs(FromUnixMs(ms)) - ms) <= 1 <==> -1 <= ms < ERA_END
  {
    if ms < 0 {
      RoundTrip(0);
    } else if ms < ERA_END {
      RoundTrip(ms);
    } else {
      FractionRoundTrip(ms % 1000);
      var s := ms / 1000 + EPOCH_DELTA;
      assert s % TWO32 <= s - TWO32;
    }
  }

  /** Converting a timestamp to milliseconds and back keeps the seconds and lowers the fraction by at most
      one millisecond's worth, for every timestamp of 1970 or later. */
  lemma EchoLoss(t: Timestamp)
    requires IsTimestamp(t) && t.seconds >= EPOCH_DELTA
    ensures var e := FromUnixMs(ToUnixMs(t));
            e.seconds == t.seconds && t.fraction - 4_294_968 <= e.fraction <= t.fraction
  {
    var m := t.fraction * 1000 / TWO32;
    var s := t.seconds - EPOCH_DELTA;
    assert 0 <= m < 1000;
    assert ToUnixMs(t) == s * 1000 + m;
    assert (s * 1000 + m) / 1000 == s && (s * 1000 + m) % 1000 == m;
    var f := m * TWO32 / 1000;
    assert m * TWO32 <= t.fraction * 1000 < (m + 1) * TWO32;
    assert f * 1000 <= m * TWO32 < (f + 1) * 1000;
  }

  /** Earlier timestamps are echoed as the Unix epoch itself. */
  lemma EchoBefore1970(t: Timestamp)
    requires IsTimestamp(t) && t.seconds < EPOCH_DELTA
    ensures FromUnixMs(ToUnixMs(t)) == Timestamp(EPOCH_DELTA, 0)
  {
    assert t.fraction * 1000 / TWO32 < 1000;
    assert ToUnixMs(t) < 0;
  }

  lemma EighthsSurvive(k: nat)
    ensures k * 0x2000_0000 * 1000 / TWO32 == 125 * k && 125 * k * TWO32 / 1000 == k * 0x2000_0000
  {
    assert k * 0x2000_0000 * 1000 == 125 * k * TWO32;
  }

  lemma ExactIsEighths(f: nat, m: nat)
    requires m * TWO32 == f * 1000
    ensures f % 0x2000_0000 == 0
  {
    // 98 * 2^29 - 420906795 * 125 = 1.
    MultipleIsDivisible(f, 98 * f - 420_906_795 * m);
  }

  lemma MultipleIsDivisible(f: nat, k: int)
    requires f == 0x2000_0000 * k
    ensures f % 0x2000_0000 == 0
  {
  }

  lemma SurvivorsAreEighths(f: nat, m: nat)
    requires m == f * 1000 / TWO32 && m * TWO32 / 1000 == f
    ensures f % 0x2000_0000 == 0
  {
    assert m * TWO32 <= f * 1000 <= m * TWO32;
    ExactIsEighths(f, m);
  }

  /** A fraction survives the trip through milliseconds exactly when it is a whole number of eighths. */
  lemma FractionEcho(f: nat)
    ensures (f * 1000 / TWO32) * TWO32 / 1000 == f <==> f % 0x2000_0000 == 0
  {
    if f % 0x2000_0000 == 0 {
      EighthsSurvive(f / 0x2000_0000);
    }
    if (f * 1000 / TWO32) * TWO32 / 1000 == f {
      SurvivorsAreEighths(f, f * 1000 / TWO32);
    }
  }

  /** The echo is verbatim exactly when the timestamp is of 1970 or later and its fraction is a whole
      number of eighths of a second. */
  lemma EchoIsVerbatimExactly(t: Timestamp)
    requires IsTimestamp(t)
    ensures FromUnixMs(ToUnixMs(t)) == t <==> t.seconds >= EPOCH_DELTA && t.fraction % 0x2000_0000 == 0
  {
    if t.seconds < EPOCH_DELTA {
      EchoBefore1970(t);
      return;
    }
    EchoLoss(t);
    FractionEcho(t.fraction);
    var m := t.fraction * 1000 / TWO32;
    assert m < 1000 && ToUnixMs(t) == (t.seconds - EPOCH_DELTA) * 1000 + m;
    assert FromUnixMs(ToUnixMs(t)).fraction == m * TWO32 / 1000;
  }

  // ---- Big-endian fields ----

  function Be32(n: nat): (b: seq<byte>)
    requires n < TWO32
    ensures |b| == 4
  {
    [(n / 0x100_0000) as byte, (n / 0x1_0000 % 256) as byte, (n / 256 % 256) as byte, (n % 256) as byte]
  }

  function FromBe32(b: seq<byte>): (n: nat)
    requires |b| == 4
    ensures n < TWO32
  {
    b[0] as int * 0x100_0000 + b[1] as int * 0x1_0000 + b[2] as int * 256 + b[3] as int
  }

  lemma Be32RoundTrip(n: nat)
    requires n < TWO32
    ensures FromBe32(Be32(n)) == n
  {
    var a, b, c := n / 0x100_0000, n / 0x1_0000, n / 256;
    assert n == c * 256 + n % 256;
    assert c == b * 256 + c % 256;
    assert b == a * 256 + b % 256;
  }

  lemma Digit(q: nat, d: nat)
    requires d < 256
    ensures (q * 256 + d) / 256 == q && (q * 256 + d) % 256 == d
  {
  }

  lemma FromBe32RoundTrip(b: seq<byte>)
    requires |b| == 4
    ensures Be32(FromBe32(b)) == b
  {
    var x, y, z, w := b[0] as int, b[1] as int, b[2] as int, b[3] as int;
    Digit(x * 0x1_0000 + y * 256 + z, w);
    Digit(x * 256 + y, z);
    Digit(x, y);
    var n := FromBe32(b);
    assert n / 0x1_0000 == n / 256 / 256 && n / 0x100_0000 == n / 256 / 256 / 256;
  }

  /** The timestamp in the eight bytes at `offset`. */
  function Field(b: seq<byte>, offset: nat): (t: Timestamp)
    requires offset + 8 <= |b|
    ensures IsTimestamp(t)
  {
    Timestamp(FromBe32(b[offset..offset + 4]), FromBe32(b[offset + 4..offset + 8]))
  }

  /** Storing a 32-bit number changes its four bytes and no others. */
  method Store32(a: array<byte>, offset: nat, n: nat)
    requires offset + 4 <= a.Length && n < TWO32
    modifies a
    ensures a[..] == old(a[..offset]) + Be32(n) + old(a[offset + 4..])
  {
    var b := Be32(n);
    for i := 0 to 4
      invariant forall k :: 0 <= k < a.Length ==> a[k] == if offset <= k < offset + i then b[k - offset] else old(a[k])
    {
      a[offset + i] := b[i];
    }
  }

  /** `b` with the eight bytes at `offset` replaced by timestamp `t`. */
  function Spliced(b: seq<byte>, offset: nat, t: Timestamp): (r: seq<byte>)
    requires offset + 8 <= |b| && IsTimestamp(t)
    ensures |r| == |b|
  {
    b[..offset] + Be32(t.seconds) + Be32(t.fraction) + b[offset + 8..]
  }

  /** A written timestamp reads back, and no other byte and no other field changes. */
  lemma SplicedField(b: seq<byte>, offset: nat, t: Timestamp)
    requires offset + 8 <= |b| && IsTimestamp(t)
    ensures Field(Spliced(b, offset, t), offset) == t
    ensures forall k :: 0 <= k < |b| && !(offset <= k < offset + 8) ==> Spliced(b, offset, t)[k] == b[k]
    ensures forall o: nat :: o + 8 <= |b| && (o + 8 <= offset || offset + 8 <= o) ==>
              Field(Spliced(b, offset, t), o) == Field(b, o)
  {
    hide FromBe32, Be32;
    var r := Spliced(b, offset, t);
    Be32RoundTrip(t.seconds);
    Be32RoundTrip(t.fraction);
    assert r[offset..offset + 4] == Be32(t.seconds);
    assert r[offset + 4..offset + 8] == Be32(t.fraction);
    forall o: nat | o + 8 <= |b| && (o + 8 <= offset || offset + 8 <= o)
      ensures Field(r, o) == Field(b, o)
    {
      assert r[o..o + 4] == b[o..o + 4];
      assert r[o + 4..o + 8] == b[o + 4..o + 8];
    }
  }

  method WriteTimestamp(a: array<byte>, offset: nat, ms: int)
    requires offset + 8 <= a.Length
    modifies a
    ensures a[..] == Spliced(old(a[..]), offset, FromUnixMs(ms))
  {
    hide Be32, FromUnixMs;
    var t := FromUnixMs(ms);
    ghost var b := a[..];
    Store32(a, offset, t.seconds);
    assert a[offset + 4..][4..] == b[offset + 8..];
    Store32(a, offset + 4, t.fraction);
  }

  function ReadTimestamp(b: seq<byte>, offset: nat): int
    requires offset + 8 <= |b|
  {
    ToUnixMs(Field(b, offset))
  }

  // ---- Packets ----

  const TRANSMIT: nat := 40

  method BuildClientRequest(transmitMs: int) returns (a: array<byte>)
    ensures fresh(a) && a.Length == PACKET_LEN && a[0] == 0x23
    ensures Field(a[..], TRANSMIT) == FromUnixMs(transmitMs)
    ensures forall k :: 1 <= k < TRANSMIT ==> a[..][k] == 0
  {
    a := new byte[PACKET_LEN](_ => 0);
    a[0] := 0x23;
    SplicedField(a[..], TRANSMIT, FromUnixMs(transmitMs));
    WriteTimestamp(a, TRANSMIT, transmitMs);
  }

  /** The transmit time of a long enough packet in client mode; nothing for any other packet. */
  function ParseClientRequest(b: seq<byte>): Option<int> {
    if |b| < PACKET_LEN then None
    else if b[0] % 8 != 3 then None
    else Some(ReadTimestamp(b, TRANSMIT))
  }

  lemma FourFields(b: seq<byte>, origin: Timestamp, verified: Timestamp)
    requires |b| == PACKET_LEN && IsTimestamp(origin) && IsTimestamp(verified)
    ensures var r := Spliced(Spliced(Spliced(Spliced(b, 16, verified), 24, origin), 32, verified), 40, verified);
            && r[..16] == b[..16]
            && Field(r, 24) == origin
            && Field(r, 16) == Field(r, 32) == Field(r, 40) == verified
  {
    hide Field, Spliced;
    var b1 := Spliced(b, 16, verified);
    var b2 := Spliced(b1, 24, origin);
    var b3 := Spliced(b2, 32, verified);
    SplicedField(b, 16, verified);
    SplicedField(b1, 24, origin);
    SplicedField(b2, 32, verified);
    SplicedField(b3, 40, verified);
  }

  /** Version 4, server mode, stratum 2, poll and precision fields, no delay or dispersion, "OAGG". */
  const SERVER_HEADER: seq<byte> := [0x24, 2, 4, 0xEC, 0, 0, 0, 0, 0, 0, 0, 0, 0x4F, 0x41, 0x47, 0x47]

  method StartServerResponse() returns (a: array<byte>)
    ensures fresh(a) && a.Length == PACKET_LEN && a[..][..16] == SERVER_HEADER
  {
    a := new byte[PACKET_LEN](_ => 0);
    a[0], a[1], a[2], a[3] := 0x24, 2, 4, 0xEC;
    a[12], a[13], a[14], a[15] := 0x4F, 0x41, 0x47, 0x47;
  }

  method BuildServerResponse(originMs: int, verifiedMs: int) returns (a: array<byte>)
    ensures fresh(a) && a.Length == PACKET_LEN && a[..][..16] == SERVER_HEADER
    ensures Field(a[..], 24) == FromUnixMs(originMs)
    ensures Field(a[..], 16) == Field(a[..], 32) == Field(a[..], 40) == FromUnixMs(verifiedMs)
  {
    hide Field, Spliced, FromUnixMs;
    a := StartServerResponse();
    FourFields(a[..], FromUnixMs(originMs), FromUnixMs(verifiedMs));
    WriteTimestamp(a, 16, verifiedMs);
    WriteTimestamp(a, 24, originMs);
    WriteTimestamp(a, 32, verifiedMs);
    WriteTimestamp(a, 40, verifiedMs);
  }

  /** One exchange with a client: any packet that parses is answered with its own transmit timestamp, the
      seconds intact and the fraction lowered by at most a millisecond's worth when it is of 1970 or later. */
  method Answer(request: seq<byte>, verifiedMs: int) returns (r: Option<array<byte>>)
    ensures r.Some? <==> |request| >= PACKET_LEN && request[0] % 8 == 3
    ensures r.Some? ==>
              && fresh(r.value) && r.value.Length == PACKET_LEN && r.value[0] % 8 == 4
              && var sent, echo := Field(request, TRANSMIT), Field(r.value[..], 24);
              && (sent.seconds >= EPOCH_DELTA ==>
                    echo.seconds == sent.seconds && sent.fraction - 4_294_968 <= echo.fraction <= sent.fraction)
              && (sent.seconds < EPOCH_DELTA ==> echo == Timestamp(EPOCH_DELTA, 0))
              && Field(r.value[..], 32) == Field(r.value[..], 40) == FromUnixMs(verifiedMs)
  {
    var info := ParseClientRequest(request);
    if info.None? {
      return None;
    }
    var sent := Field(request, TRANSMIT);
    if sent.seconds >= EPOCH_DELTA {
      EchoLoss(sent);
    } else {
      EchoBefore1970(sent);
    }
    var a := BuildServerResponse(info.value, verifiedMs);
    assert a[0] == a[..][..16][0];
    r := Some(a);
  }

  /** A request parses to the time it was built from, up to the codec's rounding. */
  lemma RequestParses(b: seq<byte>, ms: nat)
    requires |b| == PACKET_LEN && b[0] == 0x23 && Field(b, TRANSMIT) == FromUnixMs(ms) && ms < ERA_END
    ensures ParseClientRequest(b) == Some(if ms % 1000 % 125 == 0 then ms else ms - 1)
  {
    RoundTrip(ms);
  }
}
