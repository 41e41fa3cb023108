/**
 * Owner-permission arithmetic of FileUtils (src/file-utils.js:54-100,
 * 673-699): `checkPermission` and `setPermission` read and toggle one of the
 * owner bits 4 (read, S_IRUSR), 2 (write, S_IWUSR) and 1 (execute, S_IXUSR)
 * of a POSIX mode, through the octal string of `mode & 0777`.
 *
 * As written, the "owner digit" is the first character of that string, which
 * is the group digit (or the other digit) whenever the owner digit is 0,
 * because `toString (8)` drops leading zeros. `…AsWritten` members model the
 * code as it stands; `CheckPermission` and `SetPermission` model the owner
 * digit the code evidently means, and the `File` wrappers use them.
 */
module Permissions {
  import opened Base
  import opened Paths

  /** One octal digit. */
  type Digit = d: int | 0 <= d < 8

  /** The masks the wrappers pass: 4 read, 2 write, 1 execute. */
  type Mask = m: int | m == 1 || m == 2 || m == 4 witness 1

  const ReadBit: Mask := 4
  const WriteBit: Mask := 2
  const ExecuteBit: Mask := 1

  /** `!!(mask & d)` for an octal digit. */
  predicate HasBit(d: Digit, m: Mask)
  {
    if m == 1 then d % 2 == 1
    else if m == 2 then (d / 2) % 2 == 1
    else d / 4 == 1
  }

  /** `n.toString (8)`: octal digits, most significant first, no leading zero. */
  function OctalDigits(n: nat): (ds: seq<Digit>)
    ensures |ds| >= 1
    ensures |ds| == 1 <==> n < 8
    ensures n >= 8 ==> ds[0] != 0
  {
    if n < 8 then [n] else OctalDigits(n / 8) + [n % 8]
  }

  /** How `FS.chmod` reads a mode string: as an octal number. */
  function ParseOctal(ds: seq<Digit>): nat
  {
    if ds == [] then 0 else ParseOctal(ds[..|ds| - 1]) * 8 + ds[|ds| - 1]
  }

  /** Reading the octal string back gives the number. */
  lemma {:induction false} OctalRoundTrip(n: nat)
    ensures ParseOctal(OctalDigits(n)) == n
  {
    if n >= 8 {
      OctalRoundTrip(n / 8);
      var ds := OctalDigits(n);
      assert ds[..|ds| - 1] == OctalDigits(n / 8);
    }
  }

  /** A nine-bit mode with a non-zero owner digit prints as exactly three
      digits: owner, group, other. */
  lemma {:induction false} ThreeOctalDigits(n: nat)
    requires 64 <= n < 512
    ensures OctalDigits(n) == [n / 64, (n / 8) % 8, n % 8]
  {
    assert OctalDigits(n / 64) == [n / 64];
    assert n / 8 / 8 == n / 64;
    assert OctalDigits(n / 8) == [n / 64, (n / 8) % 8];
  }

  /** The permission part of a mode: `stats.mode & parseInt ("777", 8)`. */
  function PermissionBits(mode: nat): (p: nat)
    ensures p < 512 && p % 64 == mode % 64
  {
    LowBitsKept(mode);
    mode % 512
  }

  /** Masking with 0777 keeps the group and other digits. */
  lemma LowBitsKept(mode: nat)
    ensures (mode % 512) % 64 == mode % 64
  {
    var q, p := mode / 512, mode % 512;
    assert mode == 64 * (8 * q + p / 64) + p % 64;
    Split(mode, 8 * q + p / 64, p % 64);
  }

  /** A number written as `64 * hi + lo` with `lo < 64` has `hi` as its
      quotient and `lo` as its remainder by 64. */
  lemma Split(n: nat, hi: nat, lo: nat)
    requires lo < 64 && n == 64 * hi + lo
    ensures n / 64 == hi && n % 64 == lo
  {
  }

  /** The owner digit, bits 8 to 6 of the mode. */
  function OwnerDigit(mode: nat): Digit
  {
    PermissionBits(mode) / 64
  }

  /** As written (line 59): the first character of the octal string. */
  function LeadingDigit(mode: nat): (d: Digit)
    ensures PermissionBits(mode) >= 64 ==> d == OwnerDigit(mode)
  {
    var n := PermissionBits(mode);
    if n >= 64 then
      ThreeOctalDigits(n);
      OctalDigits(n)[0]
    else
      OctalDigits(n)[0]
  }

  /** `checkPermission` as written: the mask checked against the leading digit. */
  predicate CheckPermissionAsWritten(mode: nat, m: Mask): (r: bool)
    ensures PermissionBits(mode) >= 64 ==> (r <==> CheckPermission(mode, m))
  {
    HasBit(LeadingDigit(mode), m)
  }

  /** `checkPermission` as intended: the mask checked against the owner
      digit, that is, bit 8 (read), 7 (write) or 6 (execute) of the mode. */
  predicate CheckPermission(mode: nat, m: Mask): (r: bool)
    ensures r <==> (mode / (64 * m)) % 2 == 1
  {
    OwnerBit(mode, m);
    HasBit(OwnerDigit(mode), m)
  }

  /** The owner digit's bit for `m` is the mode's bit 6, 7 or 8. */
  lemma OwnerBit(mode: nat, m: Mask)
    ensures HasBit(OwnerDigit(mode), m) <==> (mode / (64 * m)) % 2 == 1
  {
    var h := mode / 64;
    OwnerDigitOf(mode);
    DivideTwice(mode, m);
    DigitBit(h, m);
  }

  /** The owner digit is the mode's third octal digit from the right. */
  lemma OwnerDigitOf(mode: nat)
    ensures OwnerDigit(mode) == (mode / 64) % 8
  {
    var q, p := mode / 512, mode % 512;
    assert mode == 64 * (8 * q + p / 64) + p % 64;
    Split(mode, 8 * q + p / 64, p % 64);
  }

  lemma DivideTwice(n: nat, m: Mask)
    ensures n / (64 * m) == (n / 64) / m
  {
    var h := n / 64;
    if m == 2 {
      assert n == 128 * (h / 2) + (64 * (h % 2) + n % 64);
    } else if m == 4 {
      assert n == 256 * (h / 4) + (64 * (h % 4) + n % 64);
    }
  }

  lemma DigitBit(h: nat, m: Mask)
    ensures HasBit((h % 8) as Digit, m) <==> (h / m) % 2 == 1
  {
    var k := h / 8;
    assert h == 8 * k + h % 8;
    if m == 2 {
      assert h / 2 == 4 * k + (h % 8) / 2;
    } else if m == 4 {
      assert h / 4 == 2 * k + (h % 8) / 4;
    }
  }

  /** `setPermission` as written (lines 69-79): the mode string handed to
      `FS.chmod`, or None when the bit already has the requested value
      (`cb (null, false)`). */
  function SetPermissionAsWritten(mode: nat, m: Mask, action: bool): (r: Option<seq<Digit>>)
    ensures r.None? <==> CheckPermissionAsWritten(mode, m) == action
    ensures r.Some? ==> var ds := OctalDigits(PermissionBits(mode));
      |r.value| == |ds| && r.value[1..] == ds[1..]
    ensures r.Some? ==> HasBit(r.value[0], m) == action
    ensures r.Some? ==> forall k: Mask :: k != m ==> HasBit(r.value[0], k) == HasBit(LeadingDigit(mode), k)
  {
    var ds := OctalDigits(PermissionBits(mode));
    var u := ds[0];
    if HasBit(u, m) != action then
      ToggleDigit(u, m, action);
      Some([if action then u + m else u - m] + ds[1..])
    else
      None
  }

  /** Adding the mask to a digit whose bit is clear, or taking it from one
      whose bit is set, toggles that bit and leaves the other two alone. */
  lemma ToggleDigit(d: Digit, m: Mask, action: bool)
    requires HasBit(d, m) != action
    ensures 0 <= (if action then d + m else d - m) < 8
    ensures var t: Digit := if action then d + m else d - m;
      HasBit(t, m) == action && forall k: Mask :: k != m ==> HasBit(t, k) == HasBit(d, k)
  {
  }

  /** `setPermission` as intended: the new nine-bit mode, with only the owner
      bit `m` changed, or None when it already has the requested value. */
  function SetPermission(mode: nat, m: Mask, action: bool): (r: Option<nat>)
    ensures r.None? <==> CheckPermission(mode, m) == action
    ensures r.Some? ==> r.value < 512 && CheckPermission(r.value, m) == action
    ensures r.Some? ==> r.value % 64 == mode % 64
    ensures r.Some? ==> forall k: Mask :: k != m ==> CheckPermission(r.value, k) == CheckPermission(mode, k)
  {
    var bits := PermissionBits(mode);
    var o := OwnerDigit(mode);
    if HasBit(o, m) != action then
      ToggleDigit(o, m, action);
      var t: Digit := if action then o + m else o - m;
      var n := 64 * t + bits % 64;
      Split(n, t, bits % 64);
      assert n < 512;
      assert PermissionBits(n) == n;
      Some(n)
    else
      None
  }

  /** Whenever the owner digit is not 0 the code does what it means: the same
      answer, and the chmod string reads as the intended mode. */
  lemma AsWrittenAgreesWithOwnerDigit(mode: nat, m: Mask, action: bool)
    requires OwnerDigit(mode) != 0
    ensures CheckPermissionAsWritten(mode, m) == CheckPermission(mode, m)
    ensures SetPermissionAsWritten(mode, m, action).Some? == SetPermission(mode, m, action).Some?
    ensures SetPermissionAsWritten(mode, m, action).Some? ==>
      ParseOctal(SetPermissionAsWritten(mode, m, action).value) == SetPermission(mode, m, action).value
  {
    var n := PermissionBits(mode);
    ThreeOctalDigits(n);
    var r := SetPermissionAsWritten(mode, m, action);
    if r.Some? {
      var ds := r.value;
      assert ds == [ds[0], (n / 8) % 8, n % 8];
      ParseThree(ds[0], (n / 8) % 8, n % 8);
      LowOctalDigits(n);
      assert ds[0] == if action then OwnerDigit(mode) + m else OwnerDigit(mode) - m;
      assert SetPermission(mode, m, action).value == 64 * (ds[0] as int) + n % 64;
    }
  }

  /** Three octal digits read as `64 a + 8 b + c`. */
  lemma ParseThree(a: Digit, b: Digit, c: Digit)
    ensures ParseOctal([a, b, c]) == 64 * (a as int) + 8 * (b as int) + c as int
  {
    assert [a, b, c][..2] == [a, b] && [a, b][..1] == [a] && [a][..0] == [];
    assert ParseOctal([a]) == a as int;
    assert ParseOctal([a, b]) == 8 * (a as int) + b as int;
  }

  /** The group and other digits make up the remainder by 64. */
  lemma LowOctalDigits(n: nat)
    ensures n % 64 == 8 * ((n / 8) % 8) + n % 8
  {
    var a := n / 8;
    assert a == 8 * (a / 8) + a % 8;
    assert n == 64 * (a / 8) + (8 * (a % 8) + n % 8);
    Split(n, a / 8, 8 * (a % 8) + n % 8);
  }

  /** The discrepancy, on mode 0o044 (owner ---, group r--, other r--):
      `canRead` answers true, and `setWritable (true)` hands chmod "64",
      which grants the group write and leaves the owner without it; on mode
      0 `setReadable (true)` hands chmod "4", which makes the file readable
      by others. */
  lemma OwnerlessModeMisread()
    ensures CheckPermissionAsWritten(36, ReadBit) && !CheckPermission(36, ReadBit)
    ensures SetPermissionAsWritten(36, WriteBit, true) == Some([6, 4])
    ensures ParseOctal([6, 4]) == 52 && SetPermission(36, WriteBit, true) == Some(164)
    ensures SetPermissionAsWritten(0, ReadBit, true) == Some([4])
    ensures ParseOctal([4]) == 4 && SetPermission(0, ReadBit, true) == Some(256)
  {
    assert PermissionBits(36) == 36 && PermissionBits(0) == 0;
    assert OctalDigits(36) == [4, 4];
    assert OctalDigits(36)[1..] == [4];
    assert OctalDigits(36)[0] == 4 && !HasBit(4, WriteBit);
    assert [4 + WriteBit] + OctalDigits(36)[1..] == [6, 4];
    assert OctalDigits(0) == [0] && OctalDigits(0)[1..] == [];
    assert !HasBit(0, ReadBit) && [0 + ReadBit] + OctalDigits(0)[1..] == [4];
    assert [6, 4][..1] == [6];
  }

  /** `canRead` (lines 90-94): false for a null path, the stat error, or
      whether the owner may read. `stat` is the outcome of `FS.stat`. */
  function CanRead(a: Address, stat: Reply<nat>): (r: Reply<bool>)
    ensures r == Ok(true) <==> !IsNull(a) && stat.Ok? && OwnerDigit(stat.value) >= 4
    ensures r.Fail? <==> !IsNull(a) && stat.Fail?
    ensures r.Fail? ==> r.error == stat.error
  {
    if IsNull(a) then Ok(false)
    else match stat
      case Fail(e) => Fail(e)
      case Ok(mode) => Ok(CheckPermission(mode, ReadBit))
  }

  /** `canWrite` (lines 96-100). */
  function CanWrite(a: Address, stat: Reply<nat>): (r: Reply<bool>)
    ensures r == Ok(true) <==> !IsNull(a) && stat.Ok? && OwnerDigit(stat.value) in {2, 3, 6, 7}
    ensures r.Fail? <==> !IsNull(a) && stat.Fail?
    ensures r.Fail? ==> r.error == stat.error
  {
    if IsNull(a) then Ok(false)
    else match stat
      case Fail(e) => Fail(e)
      case Ok(mode) => Ok(CheckPermission(mode, WriteBit))
  }

  /** `canExecute` (lines 84-88). */
  function CanExecute(a: Address, stat: Reply<nat>): (r: Reply<bool>)
    ensures r == Ok(true) <==> !IsNull(a) && stat.Ok? && OwnerDigit(stat.value) % 2 == 1
    ensures r.Fail? <==> !IsNull(a) && stat.Fail?
    ensures r.Fail? ==> r.error == stat.error
  {
    if IsNull(a) then Ok(false)
    else match stat
      case Fail(e) => Fail(e)
      case Ok(mode) => Ok(CheckPermission(mode, ExecuteBit))
  }

  /** What a `set…` call does: its reply, and the mode it asks chmod for. */
  datatype Change = Change(reply: Reply<bool>, chmod: Option<nat>)

  /** `setReadable`, `setWritable`, `setExecutable` (lines 673-699) through
      `setPermission`: `stat` is the outcome of `FS.stat`, `chmodError` the
      outcome chmod would report. */
  function SetAccess(a: Address, stat: Reply<nat>, m: Mask, action: bool, chmodError: Option<Error>): (c: Change)
    ensures IsNull(a) || stat.Fail? ==> c.chmod.None? && c.reply.Fail? == !IsNull(a)
    ensures c.chmod.Some? ==> stat.Ok? && CheckPermission(stat.value, m) != action
    ensures c.chmod.Some? ==> CheckPermission(c.chmod.value, m) == action && c.chmod.value % 64 == stat.value % 64
    ensures c.chmod.Some? ==> forall k: Mask :: k != m ==> CheckPermission(c.chmod.value, k) == CheckPermission(stat.value, k)
    ensures c.reply == Ok(true) <==> c.chmod.Some? && chmodError.None?
    ensures !IsNull(a) && stat.Ok? && CheckPermission(stat.value, m) == action ==> c == Change(Ok(false), None)
  {
    if IsNull(a) then Change(Ok(false), None)
    else match stat
      case Fail(e) => Change(Fail(e), None)
      case Ok(mode) =>
        match SetPermission(mode, m, action)
        case None => Change(Ok(false), None)
        case Some(n) => Change(if chmodError.Some? then Fail(chmodError.value) else Ok(true), Some(n))
  }
}
