/**
 * `formatStats`: the record the stat tool reports for one item, and the
 * three-digit octal rendering of the permission bits.
 */
module StatsUtils {
  import opened Common

  /** The fields of `fs.Stats` the record uses (timestamps are not modelled). */
  datatype Stats = Stats(isFile: bool, isDirectory: bool, isSymbolicLink: bool, size: nat, mode: nat, uid: nat, gid: nat)

  datatype FormattedStats = FormattedStats(
    path: string, isFile: bool, isDirectory: bool, isSymbolicLink: bool,
    size: nat, mode: string, uid: nat, gid: nat)

  predicate OctalDigit(c: char)
  {
    '0' <= c <= '7'
  }

  predicate OctalString(s: string)
  {
    forall k :: 0 <= k < |s| ==> OctalDigit(s[k])
  }

  /** The number an octal digit string denotes (`parseInt(s, 8)` on such a string). */
  function OctalValue(s: string): (n: nat)
    requires OctalString(s)
    ensures n < Pow8(|s|)
  {
    if |s| == 0 then 0
    else OctalValue(s[..|s| - 1]) * 8 + DigitValue(s[|s| - 1])
  }

  function DigitValue(c: char): (d: nat)
    requires OctalDigit(c)
    ensures d < 8
  {
    c as int - '0' as int
  }

  function Pow8(k: nat): (r: nat)
    ensures r >= 1
  {
    if k == 0 then 1 else 8 * Pow8(k - 1)
  }

  function OctalChar(d: nat): (c: char)
    requires d < 8
    ensures OctalDigit(c) && DigitValue(c) == d
  {
    ('0' as int + d) as char
  }

  /** `n.toString(8)`: base-8 digits without leading zeros. */
  function ToOctal(n: nat): (s: string)
    ensures 1 <= |s| && OctalString(s)
    ensures n < 8 ==> |s| == 1
    ensures 8 <= n < 64 ==> |s| == 2
    ensures 64 <= n < 512 ==> |s| == 3
    decreases n
  {
    if n < 8 then [OctalChar(n)] else ToOctal(n / 8) + [OctalChar(n % 8)]
  }

  /** `s.padStart(width, c)`. */
  function PadStart(s: string, width: nat, c: char): (r: string)
    ensures |r| == if |s| >= width then |s| else width
    decreases width - |s|
  {
    if |s| >= width then s else PadStart([c] + s, width, c)
  }

  /**
   * `(mode & 0o777).toString(8).padStart(3, '0')`. For a non-negative mode
   * the mask keeps the value modulo 512.
   */
  function ModeOctal(mode: nat): (r: string)
    ensures |r| == 3 && OctalString(r)
    ensures OctalValue(r) == mode % 512
  {
    var bits := mode % 512;
    var r := PadStart(ToOctal(bits), 3, '0');
    ModeDigits(bits);
    OctalValue3(r);
    ThreeDigits(bits);
    r
  }

  /** `formatStats(relativePath, absolutePath, stats)` without the timestamps. */
  function FormatStats(relativePath: string, absolutePath: string, stats: Stats): (f: FormattedStats)
    ensures f.path == NormalizeSlashes(relativePath)
    ensures f.isFile == stats.isFile && f.isDirectory == stats.isDirectory && f.isSymbolicLink == stats.isSymbolicLink
    ensures f.size == stats.size && f.uid == stats.uid && f.gid == stats.gid
    ensures |f.mode| == 3 && OctalString(f.mode) && OctalValue(f.mode) == stats.mode % 512
  {
    FormattedStats(NormalizeSlashes(relativePath), stats.isFile, stats.isDirectory, stats.isSymbolicLink,
                   stats.size, ModeOctal(stats.mode), stats.uid, stats.gid)
  }

  /** The padded rendering of a number below 512 is its three base-8 digits. */
  lemma ModeDigits(n: nat)
    requires n < 512
    ensures PadStart(ToOctal(n), 3, '0') == [OctalChar(n / 64), OctalChar(n / 8 % 8), OctalChar(n % 8)]
  {
    if n < 8 {
      PadOne(n);
    } else if n < 64 {
      PadTwo(n);
    } else {
      var m := n / 8;
      assert 8 <= m < 64 && m / 8 == n / 64 && m % 8 == n / 8 % 8;
      assert ToOctal(m / 8) == [OctalChar(m / 8)];
    }
  }

  lemma PadOne(n: nat)
    requires n < 8
    ensures PadStart(ToOctal(n), 3, '0') == [OctalChar(n / 64), OctalChar(n / 8 % 8), OctalChar(n % 8)]
  {
    var s := ToOctal(n);
    assert s == [OctalChar(n)];
    var s1 := ['0'] + s;
    assert PadStart(s, 3, '0') == ['0'] + s1 by {
      assert PadStart(s, 3, '0') == PadStart(s1, 3, '0');
    }
    assert [OctalChar(n / 64), OctalChar(n / 8 % 8), OctalChar(n % 8)] == ['0', '0', OctalChar(n)] by {
      assert n / 64 == 0 && n / 8 % 8 == 0 && n % 8 == n;
      assert OctalChar(0) == '0';
    }
  }

  lemma PadTwo(n: nat)
    requires 8 <= n < 64
    ensures PadStart(ToOctal(n), 3, '0') == [OctalChar(n / 64), OctalChar(n / 8 % 8), OctalChar(n % 8)]
  {
    var s := ToOctal(n);
    assert n / 8 < 8 && n / 64 == 0 && n / 8 % 8 == n / 8;
    assert ToOctal(n / 8) == [OctalChar(n / 8)];
    assert PadStart(s, 3, '0') == PadStart(['0'] + s, 3, '0');
    assert OctalChar(0) == '0';
  }

  lemma ThreeDigits(n: nat)
    requires n < 512
    ensures n / 64 < 8 && 64 * (n / 64) + 8 * (n / 8 % 8) + n % 8 == n
  {
  }

  lemma DigitsOf(d0: nat, d1: nat, d2: nat)
    requires d0 < 8 && d1 < 8 && d2 < 8
    ensures var n := 64 * d0 + 8 * d1 + d2; n < 512 && n / 64 == d0 && n / 8 % 8 == d1 && n % 8 == d2
  {
    var n := 64 * d0 + 8 * d1 + d2;
    assert n / 8 == 8 * d0 + d1;
  }

  /** The value of a three-digit octal string. */
  lemma OctalValue3(s: string)
    requires |s| == 3 && OctalString(s)
    ensures OctalValue(s) == 64 * DigitValue(s[0]) + 8 * DigitValue(s[1]) + DigitValue(s[2])
  {
    var s2, s1 := s[..2], s[..1];
    assert s2[..1] == s1 && s1[..0] == [];
    assert OctalValue(s1) == DigitValue(s[0]);
    assert OctalValue(s2) == OctalValue(s1) * 8 + DigitValue(s[1]);
    assert OctalValue(s) == OctalValue(s2) * 8 + DigitValue(s[2]);
  }

  /** Only the permission bits reach the rendering. */
  lemma ModeMask(mode: nat)
    ensures ModeOctal(mode) == ModeOctal(mode % 512)
  {
    assert mode % 512 % 512 == mode % 512;
  }

  /** Two three-digit octal strings with the same value are equal. */
  lemma OctalInjective3(r: string, s: string)
    requires |r| == 3 && OctalString(r) && |s| == 3 && OctalString(s)
    requires OctalValue(r) == OctalValue(s)
    ensures r == s
  {
    OctalValue3(r);
    OctalValue3(s);
    DigitsOf(DigitValue(r[0]), DigitValue(r[1]), DigitValue(r[2]));
    DigitsOf(DigitValue(s[0]), DigitValue(s[1]), DigitValue(s[2]));
    assert r[0] == s[0] && r[1] == s[1] && r[2] == s[2];
  }

  /** A three-digit octal string is the rendering of the number it denotes. */
  lemma OctalRoundTrip(s: string)
    requires |s| == 3 && OctalString(s)
    ensures ModeOctal(OctalValue(s)) == s
  {
    var n := OctalValue(s);
    assert n % 512 == n by {
      OctalValue3(s);
      DigitsOf(DigitValue(s[0]), DigitValue(s[1]), DigitValue(s[2]));
    }
    OctalInjective3(ModeOctal(n), s);
  }
}
