/** File names of the recorder's slots: `snprintf` of "a%d" (regular slot n)
    or "p%d" (skills segment k) into a buffer of FilenameMaxLength chars,
    which keeps at most FilenameMaxLength - 1 characters before the NUL. */
module FileNames {
  import opened AutonHeader

  /** The character of a decimal digit. */
  function Digit(d: nat): (c: char)
    requires d < 10
    ensures '0' <= c <= '9'
  {
    (48 + d) as char
  }

  /** The decimal digits `%d` prints for a non-negative number. */
  function NatToString(n: nat): (s: string)
    ensures 1 <= |s|
    ensures (|s| == 1) == (n < 10)
    decreases n
  {
    if n < 10 then [Digit(n)] else NatToString(n / 10) + [Digit(n % 10)]
  }

  /** What `%d` prints for any number. */
  function IntToString(n: int): string {
    if n < 0 then "-" + NatToString(-n) else NatToString(n)
  }

  /** The untruncated text "<prefix><n>". */
  function FullName(prefix: char, n: int): string {
    [prefix] + IntToString(n)
  }

  /** The name `snprintf(filename, FilenameMaxLength, "<prefix>%d", n)` leaves
      in the buffer. */
  function FileName(prefix: char, n: int): (name: string)
    ensures 2 <= |name| < FilenameMaxLength
    ensures name[0] == prefix
    ensures |FullName(prefix, n)| < FilenameMaxLength ==> name == FullName(prefix, n)
    ensures |FullName(prefix, n)| >= FilenameMaxLength ==> name == FullName(prefix, n)[..FilenameMaxLength - 1]
  {
    var full := FullName(prefix, n);
    if |full| < FilenameMaxLength then full else full[..FilenameMaxLength - 1]
  }

  /** snprintf keeps a prefix of the full text that fits with its NUL: the
      whole text, unless that is cut at the buffer's last character. */
  lemma FileNameTruncates(prefix: char, n: int)
    ensures FileName(prefix, n) <= FullName(prefix, n)
    ensures FileName(prefix, n) == FullName(prefix, n) || |FileName(prefix, n)| == FilenameMaxLength - 1
  {
  }

  function Pow10(k: nat): (p: nat)
    ensures p >= 1
  {
    if k == 0 then 1 else 10 * Pow10(k - 1)
  }

  /** A number below 10^k has at most k digits. */
  lemma {:induction false} NatToStringLength(n: nat, k: nat)
    requires 1 <= k && n < Pow10(k)
    ensures |NatToString(n)| <= k
  {
    if n >= 10 {
      assert k >= 2;
      assert n / 10 < Pow10(k - 1);
      NatToStringLength(n / 10, k - 1);
    }
  }

  /** Different numbers print differently. */
  lemma {:induction false} NatToStringInjective(m: nat, n: nat)
    requires NatToString(m) == NatToString(n)
    ensures m == n
  {
    var s := NatToString(m);
    if m >= 10 && n >= 10 {
      assert s[..|s| - 1] == NatToString(m / 10) == NatToString(n / 10);
      NatToStringInjective(m / 10, n / 10);
      assert Digit(m % 10) == s[|s| - 1] == Digit(n % 10);
    }
  }

  /** Every name the recorder generates (a1..a10, p0..p3) fits in the buffer
      with its NUL, so `snprintf` never truncates it. */
  lemma GeneratedNamesFit(n: int)
    ensures IsRegularSlot(n) ==> FileName('a', n) == FullName('a', n) && |FileName('a', n)| <= 3
    ensures 0 <= n < SegmentCount ==> FileName('p', n) == FullName('p', n) && |FileName('p', n)| == 2
  {
    if 0 <= n <= MaxAutonSlots {
      NatToStringLength(n, 2);
    }
  }

  /** The concrete names of the first and last slots and of the segments. */
  lemma ConcreteNames()
    ensures FileName('a', 1) == "a1" && FileName('a', 10) == "a10"
    ensures FileName('p', 0) == "p0" && FileName('p', 1) == "p1"
    ensures FileName('p', 2) == "p2" && FileName('p', 3) == "p3"
  {
    assert NatToString(10) == NatToString(1) + [Digit(0)];
  }

  /** Under one prefix, distinct numbers below a million (every slot and
      segment number the recorder uses) get distinct names. */
  lemma {:induction false} FileNameInjective(prefix: char, m: nat, n: nat)
    requires m < 1000000 && n < 1000000
    requires FileName(prefix, m) == FileName(prefix, n)
    ensures m == n
  {
    assert Pow10(6) == 1000000;
    NatToStringLength(m, 6);
    NatToStringLength(n, 6);
    assert NatToString(m) == FileName(prefix, m)[1..] == FileName(prefix, n)[1..] == NatToString(n);
    NatToStringInjective(m, n);
  }

  /** Regular names never collide with segment names. */
  lemma RegularAndSegmentNamesDiffer(m: int, n: int)
    ensures FileName('a', m) != FileName('p', n)
  {
    assert FileName('a', m)[0] != FileName('p', n)[0];
  }
}
