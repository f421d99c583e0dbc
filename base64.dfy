/**
 * Base 64 as section 4 of RFC 4648 defines it (the alphabet of `Convert`),
 * and the URL- and filename-safe variant of section 5 that JSON Web Tokens
 * use: groups of three bytes become four digits, and a final group of one or
 * two bytes is padded with '=' (section 3.2).
 */
module Base64 {
  import opened Common

  /** The two alphabets differ only in the digits for 62 and 63. */
  datatype Alphabet = Standard | UrlSafe

  /** The digit for the 6-bit value `n`. */
  function Digit(a: Alphabet, n: int): (c: char)
    requires 0 <= n < 64
    ensures c != '=' && c != '.' && !IsBase64Space(c)
  {
    if n < 26 then ('A' as int + n) as char
    else if n < 52 then ('a' as int + n - 26) as char
    else if n < 62 then ('0' as int + n - 52) as char
    else if n == 62 then (if a == Standard then '+' else '-')
    else (if a == Standard then '/' else '_')
  }

  /** The 6-bit value of a digit, or `None` for a character outside the alphabet. */
  function Value(a: Alphabet, c: char): (r: Option<nat>)
    ensures r.Some? ==> r.value < 64 && Digit(a, r.value) == c
  {
    if 'A' <= c <= 'Z' then Some(c as int - 'A' as int)
    else if 'a' <= c <= 'z' then Some(c as int - 'a' as int + 26)
    else if '0' <= c <= '9' then Some(c as int - '0' as int + 52)
    else if c == (if a == Standard then '+' else '-') then Some(62)
    else if c == (if a == Standard then '/' else '_') then Some(63)
    else None
  }

  /** Every digit reads back as its value, so the digits of an alphabet are distinct. */
  lemma ValueOfDigit(a: Alphabet, n: int)
    requires 0 <= n < 64
    ensures Value(a, Digit(a, n)) == Some(n)
  {
  }

  /** Three bytes as four digits, most significant bits first. */
  function EncodeGroup(a: Alphabet, x: Byte, y: Byte, z: Byte): string {
    var n := x as int * 65536 + y as int * 256 + z as int;
    [Digit(a, n / 262144), Digit(a, n / 4096 % 64), Digit(a, n / 64 % 64), Digit(a, n % 64)]
  }

  /** The number of four-character groups that encode `n` bytes. */
  function Groups(n: nat): nat {
    if n == 0 then 0 else if n <= 3 then 1 else 1 + Groups(n - 3)
  }

  /** The padded encoding of `b`. */
  function Encode(a: Alphabet, b: seq<Byte>): (r: string)
    ensures |r| == 4 * Groups(|b|)
    decreases |b|
  {
    if |b| == 0 then []
    else if |b| == 1 then
      var n := b[0] as int * 16;
      [Digit(a, n / 64), Digit(a, n % 64), '=', '=']
    else if |b| == 2 then
      var n := (b[0] as int * 256 + b[1] as int) * 4;
      [Digit(a, n / 4096), Digit(a, n / 64 % 64), Digit(a, n % 64), '=']
    else EncodeGroup(a, b[0], b[1], b[2]) + Encode(a, b[3..])
  }

  /** Every three bytes, and a final one or two, take four characters. */
  lemma {:induction false} EncodeLength(a: Alphabet, b: seq<Byte>)
    ensures |Encode(a, b)| == 4 * ((|b| + 2) / 3)
  {
    GroupsCount(|b|);
  }

  lemma {:induction false} GroupsCount(n: nat)
    ensures Groups(n) == (n + 2) / 3
  {
    if n > 3 {
      GroupsCount(n - 3);
    }
  }

  /** The value of four digits, or `None` when one is outside the alphabet. */
  function GroupValue(a: Alphabet, q: string): (r: Option<int>)
    requires |q| == 4
    ensures r.Some? ==> 0 <= r.value < 16777216
  {
    var v0, v1, v2, v3 := Value(a, q[0]), Value(a, q[1]), Value(a, q[2]), Value(a, q[3]);
    if v0.Some? && v1.Some? && v2.Some? && v3.Some? then
      Some(v0.value * 262144 + v1.value * 4096 + v2.value * 64 + v3.value)
    else None
  }

  /**
   * One group of four characters back to bytes; only the last group may end
   * in padding. The bits a padded group's last digit carries beyond its
   * bytes are dropped.
   */
  function DecodeGroup(a: Alphabet, q: string, last: bool): (r: Option<seq<Byte>>)
    requires |q| == 4
  {
    if last && q[2] == '=' && q[3] == '=' then
      var g := GroupValue(a, q[..2] + "AA");
      if g.None? then None else Some([(g.value / 65536) as Byte])
    else if last && q[3] == '=' then
      var g := GroupValue(a, q[..3] + "A");
      if g.None? then None else Some([(g.value / 65536) as Byte, (g.value / 256 % 256) as Byte])
    else
      var g := GroupValue(a, q);
      if g.None? then None
      else Some([(g.value / 65536) as Byte, (g.value / 256 % 256) as Byte, (g.value % 256) as Byte])
  }

  /**
   * The digits without their white space, group by group: `None` where
   * `Convert.FromBase64String` throws a `FormatException` (a length that is
   * not a multiple of four, so that a shorter group is left at the end, a
   * character outside the alphabet, padding anywhere but at the end).
   */
  function DecodeGroups(a: Alphabet, s: string): (r: Option<seq<Byte>>)
    decreases |s|
  {
    if s == [] then Some([])
    else if |s| < 4 then None
    else
      var g := DecodeGroup(a, s[..4], |s| == 4);
      var rest := DecodeGroups(a, s[4..]);
      if g.None? || rest.None? then None else Some(g.value + rest.value)
  }

  /** The white space `Convert.FromBase64String` skips wherever it occurs. */
  predicate IsBase64Space(c: char) {
    c == ' ' || c == '\t' || c == '\r' || c == '\n'
  }

  /** `s` without its white space, the other characters in order. */
  function SkipSpace(s: string): (r: string)
    ensures |r| <= |s|
    ensures forall i :: 0 <= i < |r| ==> !IsBase64Space(r[i])
    ensures (forall i :: 0 <= i < |s| ==> !IsBase64Space(s[i])) ==> r == s
    decreases |s|
  {
    if s == [] then []
    else (if IsBase64Space(s[0]) then [] else [s[0]]) + SkipSpace(s[1..])
  }

  /** Skipping the white space of a concatenation skips it in each part. */
  lemma {:induction false} SkipSpaceConcat(s: string, t: string)
    ensures SkipSpace(s + t) == SkipSpace(s) + SkipSpace(t)
    decreases |s|
  {
    if s != [] {
      var head := if IsBase64Space(s[0]) then [] else [s[0]];
      assert (s + t)[0] == s[0] && (s + t)[1..] == s[1..] + t;
      assert SkipSpace(s + t) == head + SkipSpace(s[1..] + t);
      SkipSpaceConcat(s[1..], t);
      assert head + (SkipSpace(s[1..]) + SkipSpace(t)) == (head + SkipSpace(s[1..])) + SkipSpace(t);
    } else {
      assert s + t == t;
    }
  }

  /**
   * `Convert.FromBase64String` for `Standard`: white space is skipped, and
   * the rest decodes group by group.
   */
  function Decode(a: Alphabet, s: string): (r: Option<seq<Byte>>) {
    DecodeGroups(a, SkipSpace(s))
  }

  /** White space inserted anywhere in an encoding does not change what it decodes to. */
  lemma DecodeIgnoresSpace(a: Alphabet, x: string, y: string, w: string)
    requires forall i :: 0 <= i < |w| ==> IsBase64Space(w[i])
    ensures Decode(a, x + w + y) == Decode(a, x + y)
  {
    SkipSpaceConcat(x + w, y);
    SkipSpaceConcat(x, w);
    SkipSpaceConcat(x, y);
    SkipSpaceOfSpace(w);
    assert SkipSpace(x + w) == SkipSpace(x) + [] == SkipSpace(x);
    assert SkipSpace(x + w + y) == SkipSpace(x + y);
  }

  /** Only white space skips to nothing. */
  lemma {:induction false} SkipSpaceOfSpace(w: string)
    requires forall i :: 0 <= i < |w| ==> IsBase64Space(w[i])
    ensures SkipSpace(w) == []
    decreases |w|
  {
    if w != [] {
      SkipSpaceOfSpace(w[1..]);
    }
  }

  /** An encoding holds no white space. */
  lemma {:induction false} EncodeHasNoSpace(a: Alphabet, b: seq<Byte>)
    ensures forall i :: 0 <= i < |Encode(a, b)| ==> !IsBase64Space(Encode(a, b)[i])
    decreases |b|
  {
    if |b| >= 3 {
      EncodeHasNoSpace(a, b[3..]);
      var q := EncodeGroup(a, b[0], b[1], b[2]);
      assert Encode(a, b) == q + Encode(a, b[3..]);
    }
  }

  /** The four digits of a 24-bit value put it back together. */
  lemma GroupDigits(n: int)
    requires 0 <= n < 16777216
    ensures (n / 262144) * 262144 + (n / 4096 % 64) * 4096 + (n / 64 % 64) * 64 + n % 64 == n
  {
    SixBitsAtATime(n);
    assert n / 64 == n / 4096 * 64 + n / 64 % 64;
    assert n / 4096 == n / 262144 * 64 + n / 4096 % 64;
  }

  /** Dropping six bits twice is dropping twelve, and three times eighteen. */
  lemma SixBitsAtATime(n: int)
    requires 0 <= n
    ensures n / 64 / 64 == n / 4096 && n / 4096 / 64 == n / 262144
  {
  }

  /** A 24-bit value made of three bytes gives those bytes back. */
  lemma GroupBytes(x: int, y: int, z: int)
    requires 0 <= x < 256 && 0 <= y < 256 && 0 <= z < 256
    ensures var n := x * 65536 + y * 256 + z; n / 65536 == x && n / 256 % 256 == y && n % 256 == z
  {
  }

  lemma DecodeEncodeGroup(a: Alphabet, x: Byte, y: Byte, z: Byte, last: bool)
    ensures DecodeGroup(a, EncodeGroup(a, x, y, z), last) == Some([x, y, z])
  {
    var n := x as int * 65536 + y as int * 256 + z as int;
    var q := EncodeGroup(a, x, y, z);
    ValueOfDigit(a, n / 262144);
    ValueOfDigit(a, n / 4096 % 64);
    ValueOfDigit(a, n / 64 % 64);
    ValueOfDigit(a, n % 64);
    GroupDigits(n);
    GroupBytes(x as int, y as int, z as int);
    assert GroupValue(a, q) == Some(n);
  }

  lemma DecodeEncodeOne(a: Alphabet, x: Byte)
    ensures DecodeGroup(a, Encode(a, [x]), true) == Some([x])
  {
    var n := x as int * 16;
    var q := Encode(a, [x]);
    ValueOfDigit(a, n / 64);
    ValueOfDigit(a, n % 64);
    assert q[..2] + "AA" == [Digit(a, n / 64), Digit(a, n % 64), 'A', 'A'];
    assert GroupValue(a, q[..2] + "AA") == Some(x as int * 65536);
  }

  /** Two bytes padded to 18 bits have the digits of the same bytes followed by a zero byte. */
  lemma TwoBytesDigits(x: int, y: int)
    requires 0 <= x < 256 && 0 <= y < 256
    ensures var n, m := (x * 256 + y) * 4, x * 65536 + y * 256;
      n / 4096 == m / 262144 && n / 64 % 64 == m / 4096 % 64 && n % 64 == m / 64 % 64 && m % 64 == 0
  {
  }

  lemma DecodeEncodeTwo(a: Alphabet, x: Byte, y: Byte)
    ensures DecodeGroup(a, Encode(a, [x, y]), true) == Some([x, y])
  {
    var n := (x as int * 256 + y as int) * 4;
    var q := Encode(a, [x, y]);
    var m := x as int * 65536 + y as int * 256;
    TwoBytesDigits(x as int, y as int);
    GroupDigits(m);
    ValueOfDigit(a, n / 4096);
    ValueOfDigit(a, n / 64 % 64);
    ValueOfDigit(a, n % 64);
    assert q[..3] + "A" == [Digit(a, m / 262144), Digit(a, m / 4096 % 64), Digit(a, m / 64 % 64), 'A'];
    assert GroupValue(a, q[..3] + "A") == Some(m);
    GroupBytes(x as int, y as int, 0);
  }

  /** Decoding inverts encoding, for every byte sequence and either alphabet. */
  lemma DecodeEncode(a: Alphabet, b: seq<Byte>)
    ensures Decode(a, Encode(a, b)) == Some(b)
  {
    EncodeHasNoSpace(a, b);
    DecodeGroupsEncode(a, b);
  }

  /** The groups of an encoding decode to the bytes encoded. */
  lemma {:induction false} DecodeGroupsEncode(a: Alphabet, b: seq<Byte>)
    ensures DecodeGroups(a, Encode(a, b)) == Some(b)
    decreases |b|
  {
    if |b| == 1 || |b| == 2 {
      DecodeEncodeShort(a, b);
    } else if |b| >= 3 {
      DecodeGroupsEncode(a, b[3..]);
      DecodeEncodeStep(a, b);
    }
  }

  lemma DecodeEncodeShort(a: Alphabet, b: seq<Byte>)
    requires |b| == 1 || |b| == 2
    ensures DecodeGroups(a, Encode(a, b)) == Some(b)
  {
    var s := Encode(a, b);
    if |b| == 1 {
      assert [b[0]] == b;
      DecodeEncodeOne(a, b[0]);
    } else {
      assert [b[0], b[1]] == b;
      DecodeEncodeTwo(a, b[0], b[1]);
    }
    assert |s| == 4 && s[..4] == s && s[4..] == [];
    assert DecodeGroups(a, s[4..]) == Some([]) && b + [] == b;
  }

  lemma DecodeEncodeStep(a: Alphabet, b: seq<Byte>)
    requires |b| >= 3
    requires DecodeGroups(a, Encode(a, b[3..])) == Some(b[3..])
    ensures DecodeGroups(a, Encode(a, b)) == Some(b)
  {
    var s := Encode(a, b);
    var q := EncodeGroup(a, b[0], b[1], b[2]);
    DecodeEncodeGroup(a, b[0], b[1], b[2], |s| == 4);
    assert s == q + Encode(a, b[3..]);
    assert s[..4] == q && s[4..] == Encode(a, b[3..]);
    assert [b[0], b[1], b[2]] + b[3..] == b;
  }

  /** The number of '=' that pad the encoding of `n` bytes. */
  function Padding(n: nat): (p: nat)
    ensures p <= 2
  {
    if n == 0 then 0 else if n == 1 then 2 else if n == 2 then 1 else Padding(n - 3)
  }

  /** Padding by the remainder of the length modulo three. */
  lemma {:induction false} PaddingByRemainder(n: nat)
    ensures Padding(n) == (if n % 3 == 0 then 0 else if n % 3 == 1 then 2 else 1)
  {
    if n >= 3 {
      assert Padding(n) == Padding(n - 3);
      PaddingByRemainder(n - 3);
      assert (n - 3) % 3 == n % 3;
    }
  }

  /** A string without padding characters. */
  predicate NoPadding(s: string) {
    forall i :: 0 <= i < |s| ==> s[i] != '='
  }

  /** `r` is characters other than '=' followed by exactly `p` '=' (at most two). */
  predicate PaddedBy(r: string, p: nat) {
    p <= 2 && p <= |r| && NoPadding(r[..|r| - p]) && r[|r| - p..] == "=="[..p]
  }

  /**
   * An encoding is digits followed by exactly `Padding(|b|)` '=': none when
   * the length is a multiple of three, two when one byte is left over, one
   * when two are.
   */
  lemma {:induction false} EncodePadding(a: Alphabet, b: seq<Byte>)
    ensures PaddedBy(Encode(a, b), Padding(|b|))
    decreases |b|
  {
    if 1 <= |b| < 3 {
      ShortPadding(a, b);
    } else if |b| >= 3 {
      EncodePadding(a, b[3..]);
      var q := EncodeGroup(a, b[0], b[1], b[2]);
      GroupHasNoPadding(a, b[0], b[1], b[2]);
      PaddedByConcat(q, Encode(a, b[3..]), Padding(|b[3..]|));
    }
  }

  /** A padded string keeps its padding behind a prefix without '='. */
  lemma PaddedByConcat(q: string, rest: string, p: nat)
    requires NoPadding(q) && PaddedBy(rest, p)
    ensures PaddedBy(q + rest, p)
  {
    NoPaddingConcat(q, rest[..|rest| - p]);
    ConcatSlices(q, rest, |rest| - p);
  }

  /** A final group of one or two bytes: its digits, then two or one '='. */
  lemma ShortPadding(a: Alphabet, b: seq<Byte>)
    requires 1 <= |b| < 3
    ensures PaddedBy(Encode(a, b), Padding(|b|))
  {
    var r := Encode(a, b);
    if |b| == 1 {
      assert r[..2] == [r[0], r[1]] && r[2..] == "==";
    } else {
      assert r[..3] == [r[0], r[1], r[2]] && r[3..] == "=";
    }
  }

  /** A full group is four digits. */
  lemma GroupHasNoPadding(a: Alphabet, x: Byte, y: Byte, z: Byte)
    ensures NoPadding(EncodeGroup(a, x, y, z))
  {
    var q := EncodeGroup(a, x, y, z);
    assert q[0] != '=' && q[1] != '=' && q[2] != '=' && q[3] != '=';
  }

  lemma NoPaddingConcat(x: string, y: string)
    requires NoPadding(x) && NoPadding(y)
    ensures NoPadding(x + y)
  {
    forall i | 0 <= i < |x + y| ensures (x + y)[i] != '=' {
      if i >= |x| {
        assert (x + y)[i] == y[i - |x|];
      }
    }
  }

  /** Cutting `q + rest` at `|q| + k` cuts `rest` at `k`. */
  lemma ConcatSlices<T>(q: seq<T>, rest: seq<T>, k: nat)
    requires k <= |rest|
    ensures (q + rest)[..|q| + k] == q + rest[..k]
    ensures (q + rest)[|q| + k..] == rest[k..]
  {
  }

  /** An encoding without its padding, as base64url leaves it in a JSON Web Token. */
  function Unpadded(a: Alphabet, b: seq<Byte>): (r: string)
    ensures NoPadding(r)
    ensures forall i :: 0 <= i < |r| ==> r[i] != '.'
    ensures Unpadded(a, b) + "=="[..Padding(|b|)] == Encode(a, b)
  {
    EncodePadding(a, b);
    UnpaddedDigits(a, b);
    var e := Encode(a, b);
    assert e[..|e| - Padding(|b|)] + e[|e| - Padding(|b|)..] == e;
    e[..|e| - Padding(|b|)]
  }

  /** What is left of an encoding once its padding is dropped is all digits. */
  lemma {:induction false} UnpaddedDigits(a: Alphabet, b: seq<Byte>)
    ensures Padding(|b|) <= |Encode(a, b)|
    ensures var e := Encode(a, b); forall i :: 0 <= i < |e| - Padding(|b|) ==> e[i] != '.'
    decreases |b|
  {
    EncodePadding(a, b);
    if |b| >= 3 {
      UnpaddedDigits(a, b[3..]);
      assert Encode(a, b) == EncodeGroup(a, b[0], b[1], b[2]) + Encode(a, b[3..]);
    }
  }
}
