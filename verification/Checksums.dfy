/** Ones' complement sums over bytes: the sum folded after every word (IPv4 header) and the
    sum folded once at the end (transport segments) are the same canonical residue. */
module Checksums {
  import opened Bytes

  const WORD_MAX: nat := 0xFFFF
  const UINT32_MAX: nat := 0xFFFF_FFFF

  /** The big-endian 16-bit words of `s` added up without any folding; a last odd byte counts
      as the high half of a word. */
  function WordSum(s: seq<Byte>): nat {
    if |s| == 0 then 0
    else if |s| == 1 then (s[0] as int) * 256
    else Be16(s, 0) + WordSum(s[2..])
  }

  /** The one's complement residue of a plain sum: zero only for zero, else 1..65535. */
  function Canon(n: nat): (r: nat)
    ensures r <= WORD_MAX
  {
    if n == 0 then 0 else 1 + (n - 1) % WORD_MAX
  }

  /** One carry folded back. */
  function Wrap(n: nat): nat { n % 0x1_0000 + n / 0x1_0000 }

  lemma ModStep(n: nat, k: nat)
    ensures (n + k * WORD_MAX) % WORD_MAX == n % WORD_MAX
  {
    if k > 0 {
      ModStep(n, k - 1);
      assert n + k * WORD_MAX == (n + (k - 1) * WORD_MAX) + WORD_MAX;
    }
  }

  lemma WrapKeeps(n: nat)
    requires n > WORD_MAX
    ensures 0 < Wrap(n) < n && Canon(Wrap(n)) == Canon(n)
  {
    var k := n / 0x1_0000;
    assert n == k * 0x1_0000 + n % 0x1_0000;
    assert n - 1 == (Wrap(n) - 1) + k * WORD_MAX;
    ModStep(Wrap(n) - 1, k);
  }

  /** Folding part of a sum early does not change the folded total. */
  lemma CanonAdd(a: nat, b: nat)
    ensures Canon(Canon(a) + b) == Canon(a + b)
  {
    if a > 0 {
      var k := (a - 1) / WORD_MAX;
      assert a - 1 == k * WORD_MAX + (a - 1) % WORD_MAX;
      assert a + b - 1 == (Canon(a) + b - 1) + k * WORD_MAX;
      ModStep(Canon(a) + b - 1, k);
    }
  }

  lemma CanonSmall(n: nat)
    requires n <= WORD_MAX
    ensures Canon(n) == n
  {
  }

  /** A checksum verifies exactly when the plain sum is a positive multiple of 65535. */
  lemma VerifiesWhen(n: nat)
    ensures WORD_MAX - Canon(n) == 0 <==> n > 0 && n % WORD_MAX == 0
  {
    if n > 0 {
      var k := (n - 1) / WORD_MAX;
      var r := (n - 1) % WORD_MAX;
      assert n == k * WORD_MAX + (r + 1);
      ModStep(r + 1, k);
    }
  }

  /** Complementing the sum and adding it back always verifies. */
  lemma ComplementVerifies(n: nat)
    ensures Canon(n + (WORD_MAX - Canon(n))) == WORD_MAX
  {
    var c := WORD_MAX - Canon(n);
    CanonAdd(n, c);
    CanonSmall(WORD_MAX);
  }

  /** Splitting at an even offset splits the sum. */
  lemma {:induction false} WordSumSplit(s: seq<Byte>, i: nat)
    requires i <= |s| && i % 2 == 0
    ensures WordSum(s) == WordSum(s[..i]) + WordSum(s[i..])
  {
    if i == 0 {
      assert s[0..] == s;
    } else {
      WordSumSplit(s[2..], i - 2);
      assert s[2..][..i - 2] == s[..i][2..];
      assert s[2..][i - 2..] == s[i..];
    }
  }

  lemma NothingSummed()
    ensures Canon(WordSum([])) == 0
  {
  }

  /** The next word extends the sum of a prefix. */
  lemma WordSumStep(s: seq<Byte>, k: nat)
    requires k + 2 <= |s| && k % 2 == 0
    ensures WordSum(s[..k + 2]) == WordSum(s[..k]) + Be16(s, k)
  {
    var t := s[..k + 2];
    WordSumSplit(t, k);
    assert t[..k] == s[..k];
    assert t[k..][2..] == [];
  }

  /** Writing a word over a zero word at an even offset adds that word. */
  lemma WordSumWrite(s: seq<Byte>, t: seq<Byte>, i: nat)
    requires i + 2 <= |s| == |t| && i % 2 == 0
    requires s[i] == 0 && s[i + 1] == 0
    requires t[..i] == s[..i] && t[i + 2..] == s[i + 2..]
    ensures WordSum(t) == WordSum(s) + Be16(t, i)
  {
    WordSumSplit(s, i);
    WordSumSplit(t, i);
    assert s[i..][2..] == s[i + 2..];
    assert t[i..][2..] == t[i + 2..];
  }

  lemma {:induction false} WordSumBound(s: seq<Byte>)
    ensures WordSum(s) <= (|s| + 1) / 2 * WORD_MAX
  {
    if |s| >= 2 {
      WordSumBound(s[2..]);
    }
  }

  /** RFC 1071 section 1: a field filled with the complement of the rest makes the block
      verify; `rest` is whatever else is summed with the block (the pseudo header). */
  lemma FilledVerifies(s: seq<Byte>, t: seq<Byte>, i: nat, rest: nat)
    requires i + 2 <= |s| == |t| && i % 2 == 0
    requires s[i] == 0 && s[i + 1] == 0
    requires t[..i] == s[..i] && t[i + 2..] == s[i + 2..]
    requires Be16(t, i) == WORD_MAX - Canon(rest + WordSum(s))
    ensures Canon(rest + WordSum(t)) == WORD_MAX
  {
    WordSumWrite(s, t, i);
    ComplementVerifies(rest + WordSum(s));
  }

  /** The word sum is a function of the words, so changing one word by anything but a multiple
      of 65535 is noticed. */
  lemma ChangedWordNoticed(s: seq<Byte>, t: seq<Byte>, i: nat, rest: nat)
    requires i + 2 <= |s| == |t| && i % 2 == 0
    requires t[..i] == s[..i] && t[i + 2..] == s[i + 2..]
    requires Canon(rest + WordSum(s)) == WORD_MAX
    requires Canon(rest + WordSum(t)) == WORD_MAX
    ensures Be16(s, i) == Be16(t, i) || {Be16(s, i), Be16(t, i)} == {0, WORD_MAX}
  {
    var z := s[i := 0][i + 1 := 0];
    assert z[..i] == s[..i] && z[i + 2..] == s[i + 2..];
    hide WordSum, Canon;
    WordSumWrite(z, s, i);
    WordSumWrite(z, t, i);
    var a, b := Be16(s, i), Be16(t, i);
    assert a <= WORD_MAX && b <= WORD_MAX;
    hide Be16;
    BothVerify(rest + WordSum(z), a, b);
  }

  lemma BothVerify(base: nat, a: nat, b: nat)
    requires a <= WORD_MAX && b <= WORD_MAX
    requires Canon(base + a) == WORD_MAX && Canon(base + b) == WORD_MAX
    ensures a == b || {a, b} == {0, WORD_MAX}
  {
    hide Canon;
    VerifiesWhen(base + a);
    VerifiesWhen(base + b);
    SameResidue(base, a, b);
  }

  lemma SameResidue(base: nat, a: nat, b: nat)
    requires a <= WORD_MAX && b <= WORD_MAX
    requires (base + a) % WORD_MAX == (base + b) % WORD_MAX
    ensures a == b || {a, b} == {0, WORD_MAX}
  {
    var p, q := (base + a) / WORD_MAX, (base + b) / WORD_MAX;
    assert base + a == p * WORD_MAX + (base + a) % WORD_MAX;
    assert base + b == q * WORD_MAX + (base + b) % WORD_MAX;
    assert a - b == (p - q) * WORD_MAX;
    if p > q {
      assert p - q == 1;
    } else if p < q {
      assert q - p == 1;
    }
  }

  /** `while (sum > 0xFFFF) sum = (sum & 0xFFFF) + (sum >> 16)`. */
  method FoldCarries(n: nat) returns (r: nat)
    ensures r == Canon(n)
  {
    r := n;
    while r > WORD_MAX
      invariant Canon(r) == Canon(n)
    {
      WrapKeeps(r);
      r := r % 0x1_0000 + r / 0x1_0000;
    }
    CanonSmall(r);
  }

  /** The header sum, folded after every word. */
  method Ipv4Checksum(bytes: array<Byte>, start: nat, length: nat) returns (r: nat)
    requires start + length <= bytes.Length
    ensures r <= WORD_MAX
    ensures length < 20 || length > 60 || length % 2 != 0 ==> r == WORD_MAX
    ensures 20 <= length <= 60 && length % 2 == 0 ==>
              r == WORD_MAX - Canon(WordSum(bytes[start..start + length]))
  {
    if length < 20 || length > 60 || length % 2 != 0 {
      return WORD_MAX;
    }
    ghost var s := bytes[start..start + length];
    assert s[..0] == [];
    assert s[..length] == s;
    hide WordSum, Canon;
    var sum := 0;
    var offset := 0;
    NothingSummed();
    while offset < length
      invariant 0 <= offset <= length && offset % 2 == 0
      invariant sum == Canon(WordSum(s[..offset]))
    {
      WordSumStep(s, offset);
      var word := (bytes[start + offset] as int) * 256 + bytes[start + offset + 1];
      assert word == Be16(s, offset);
      CanonAdd(WordSum(s[..offset]), word);
      sum := FoldCarries(sum + word);
      offset := offset + 2;
    }
    r := WORD_MAX - sum;
  }

  /** The transport sum of one block, carried in 32 bits and folded once at the end. */
  method ChecksumAdd(start: nat, bytes: array<Byte>, from: nat, length: nat) returns (r: nat)
    requires start <= WORD_MAX && length <= WORD_MAX && from + length <= bytes.Length
    ensures r == Canon(start + WordSum(bytes[from..from + length]))
  {
    ghost var s := bytes[from..from + length];
    var sum, at, left := start, from, length;
    while left >= 2
      invariant 0 <= left <= length && at == from + length - left && (length - left) % 2 == 0
      invariant sum + WordSum(s[length - left..]) == start + WordSum(s)
    {
      assert s[length - left..][2..] == s[length - left + 2..];
      sum := sum + ((bytes[at] as int) * 256 + bytes[at + 1]);
      WordSumBound(s);
      assert sum <= UINT32_MAX;
      at, left := at + 2, left - 2;
    }
    if left != 0 {
      sum := sum + (bytes[at] as int) * 256;
      WordSumBound(s);
      assert sum <= UINT32_MAX;
    }
    r := FoldCarries(sum);
  }

  /** Sum of the twelve pseudo-header bytes: addresses, zero, protocol, segment length. */
  function PseudoSum(source: nat, destination: nat, protocol: nat, length: nat): nat {
    source / 0x1_0000 + source % 0x1_0000 + destination / 0x1_0000 + destination % 0x1_0000
      + protocol + length
  }

  /** A word untouched by a write elsewhere reads the same. */
  lemma WordKept(s: seq<Byte>, t: seq<Byte>, i: nat)
    requires i + 2 <= |s| == |t| && s[i] == t[i] && s[i + 1] == t[i + 1]
    ensures Be16(t, i) == Be16(s, i)
  {
  }

  /** The folded sum of the pseudo header, built in a buffer of its own. */
  method PseudoHeader(source: nat, destination: nat, protocol: Byte, length: nat) returns (r: nat)
    requires source <= UINT32_MAX && destination <= UINT32_MAX && length <= WORD_MAX
    ensures r == Canon(PseudoSum(source, destination, protocol, length))
  {
    hide PseudoSum, Canon, WordSum;
    var pseudo := new Byte[12](_ => 0);
    FillPseudo(pseudo, source, destination, protocol, length);
    ghost var p := pseudo[..];
    PseudoBytes(p, source, destination, protocol, length);
    assert pseudo[0..0 + 12] == p;
    hide Be16;
    assert 0 + WordSum(p) == PseudoSum(source, destination, protocol, length);
    r := ChecksumAdd(0, pseudo, 0, 12);
  }

  method FillPseudo(pseudo: array<Byte>, source: nat, destination: nat, protocol: Byte, length: nat)
    requires pseudo.Length == 12
    requires source <= UINT32_MAX && destination <= UINT32_MAX && length <= WORD_MAX
    modifies pseudo
    ensures Be16(pseudo[..], 0) == source / 0x1_0000 && Be16(pseudo[..], 2) == source % 0x1_0000
    ensures Be16(pseudo[..], 4) == destination / 0x1_0000
    ensures Be16(pseudo[..], 6) == destination % 0x1_0000
    ensures pseudo[8] == 0 && pseudo[9] == protocol && Be16(pseudo[..], 10) == length
  {
    Write32(pseudo, 0, source);
    ghost var s0 := pseudo[..];
    Write32(pseudo, 4, destination);
    ghost var s1 := pseudo[..];
    pseudo[8] := 0;
    pseudo[9] := protocol;
    Write16(pseudo, 10, length);
    ghost var s2 := pseudo[..];
    WordKept(s0, s2, 0);
    WordKept(s0, s2, 2);
    WordKept(s1, s2, 4);
    WordKept(s1, s2, 6);
  }

  /** RFC 9293 section 3.1: the segment together with its pseudo header. */
  method TransportChecksum(source: nat, destination: nat, protocol: Byte,
                           bytes: array<Byte>, start: nat, length: nat) returns (r: nat)
    requires source <= UINT32_MAX && destination <= UINT32_MAX && length <= WORD_MAX
    requires start + length <= bytes.Length
    ensures r <= WORD_MAX
    ensures r == WORD_MAX - Canon(PseudoSum(source, destination, protocol, length)
                                  + WordSum(bytes[start..start + length]))
  {
    ghost var pseudo := PseudoSum(source, destination, protocol, length);
    ghost var body := WordSum(bytes[start..start + length]);
    var sum := PseudoHeader(source, destination, protocol, length);
    CanonAdd(pseudo, body);
    hide Canon, PseudoSum, WordSum;
    sum := ChecksumAdd(sum, bytes, start, length);
    r := WORD_MAX - sum;
  }

  lemma PseudoBytes(s: seq<Byte>, source: nat, destination: nat, protocol: Byte, length: nat)
    requires |s| == 12 && source <= UINT32_MAX && destination <= UINT32_MAX && length <= WORD_MAX
    requires Be16(s, 0) == source / 0x1_0000 && Be16(s, 2) == source % 0x1_0000
    requires Be16(s, 4) == destination / 0x1_0000 && Be16(s, 6) == destination % 0x1_0000
    requires s[8] == 0 && s[9] == protocol && Be16(s, 10) == length
    ensures WordSum(s) == PseudoSum(source, destination, protocol, length)
  {
    assert WordSum(s) == Be16(s, 0) + WordSum(s[2..]);
    assert WordSum(s[2..]) == Be16(s, 2) + WordSum(s[4..]) by { assert s[2..][2..] == s[4..]; }
    assert WordSum(s[4..]) == Be16(s, 4) + WordSum(s[6..]) by { assert s[4..][2..] == s[6..]; }
    assert WordSum(s[6..]) == Be16(s, 6) + WordSum(s[8..]) by { assert s[6..][2..] == s[8..]; }
    assert WordSum(s[8..]) == Be16(s, 8) + WordSum(s[10..]) by { assert s[8..][2..] == s[10..]; }
    assert WordSum(s[10..]) == Be16(s, 10) + WordSum(s[12..]) by { assert s[10..][2..] == s[12..]; }
  }

  method Write16(bytes: array<Byte>, i: nat, v: nat)
    requires i + 2 <= bytes.Length && v <= WORD_MAX
    modifies bytes
    ensures bytes[i] == v / 256 && bytes[i + 1] == v % 256
    ensures Be16(bytes[..], i) == v
    ensures forall k | 0 <= k < bytes.Length && k != i && k != i + 1 :: bytes[k] == old(bytes[k])
  {
    bytes[i] := v / 256;
    bytes[i + 1] := v % 256;
  }

  method Write32(bytes: array<Byte>, i: nat, v: nat)
    requires i + 4 <= bytes.Length && v <= UINT32_MAX
    modifies bytes
    ensures Be16(bytes[..], i) == v / 0x1_0000 && Be16(bytes[..], i + 2) == v % 0x1_0000
    ensures Be32(bytes[..], i) == v
    ensures forall k | 0 <= k < bytes.Length && !(i <= k < i + 4) :: bytes[k] == old(bytes[k])
  {
    bytes[i] := v / 0x100_0000;
    bytes[i + 1] := v / 0x1_0000 % 256;
    bytes[i + 2] := v / 256 % 256;
    bytes[i + 3] := v % 256;
    assert (v / 0x100_0000 * 256 + v / 0x1_0000 % 256) == v / 0x1_0000;
    assert v / 256 % 256 * 256 + v % 256 == v % 0x1_0000;
  }
}
