/** JSON pointer segments; sections 3 and 4 of RFC 6901. */
module JsonPointers {

  /** Replaces every occurrence of one character. */
  function Replaced(s: string, c: char, text: string): string {
    if s == [] then [] else (if s[0] == c then text else [s[0]]) + Replaced(s[1..], c, text)
  }

  function Segment(key: string): string {
    Replaced(Replaced(key, '~', "~0"), '/', "~1")
  }

  /** Replaces every occurrence of the pair `~` and `second`. */
  function Unpaired(s: string, second: char, plain: char): string {
    if |s| >= 2 && s[0] == '~' && s[1] == second then [plain] + Unpaired(s[2..], second, plain)
    else if s == [] then []
    else [s[0]] + Unpaired(s[1..], second, plain)
  }

  /** First `~1`, then `~0`. */
  function Decoded(segment: string): string {
    Unpaired(Unpaired(segment, '1', '/'), '0', '~')
  }

  lemma ReplacedCons(c: char, s: string, what: char, text: string)
    ensures Replaced([c] + s, what, text) == (if c == what then text else [c]) + Replaced(s, what, text)
  {
    assert ([c] + s)[1..] == s;
  }

  /** Undoing the slashes leaves the tildes escaped. */
  lemma {:induction false} SlashesDecode(key: string)
    ensures Unpaired(Segment(key), '1', '/') == Replaced(key, '~', "~0")
  {
    if key != [] {
      var rest := key[1..];
      SlashesDecode(rest);
      var tail := Segment(rest);
      assert key == [key[0]] + rest;
      if key[0] == '~' {
        assert Replaced(key, '~', "~0") == ['~'] + (['0'] + Replaced(rest, '~', "~0"));
        ReplacedCons('0', Replaced(rest, '~', "~0"), '/', "~1");
        ReplacedCons('~', ['0'] + Replaced(rest, '~', "~0"), '/', "~1");
        assert Segment(key) == ['~'] + (['0'] + tail);
        assert Segment(key)[1..] == ['0'] + tail && (['0'] + tail)[1..] == tail;
        assert Unpaired(['0'] + tail, '1', '/') == ['0'] + Unpaired(tail, '1', '/');
      } else if key[0] == '/' {
        assert Replaced(key, '~', "~0") == ['/'] + Replaced(rest, '~', "~0");
        ReplacedCons('/', Replaced(rest, '~', "~0"), '/', "~1");
        assert Segment(key) == "~1" + tail;
        assert Segment(key)[2..] == tail;
      } else {
        assert Replaced(key, '~', "~0") == [key[0]] + Replaced(rest, '~', "~0");
        ReplacedCons(key[0], Replaced(rest, '~', "~0"), '/', "~1");
        assert Segment(key) == [key[0]] + tail;
        assert Segment(key)[1..] == tail;
      }
    }
  }

  lemma {:induction false} TildesDecode(key: string)
    ensures Unpaired(Replaced(key, '~', "~0"), '0', '~') == key
  {
    if key != [] {
      var rest := key[1..];
      TildesDecode(rest);
      var tail := Replaced(rest, '~', "~0");
      assert key == [key[0]] + rest;
      if key[0] == '~' {
        assert Replaced(key, '~', "~0") == "~0" + tail;
        assert ("~0" + tail)[2..] == tail;
      } else {
        assert Replaced(key, '~', "~0") == [key[0]] + tail;
        assert ([key[0]] + tail)[1..] == tail;
      }
    }
  }

  /** Every segment decodes back to its key. */
  lemma SegmentDecodes(key: string)
    ensures Decoded(Segment(key)) == key
  {
    SlashesDecode(key);
    TildesDecode(key);
  }

  predicate NoSlash(s: string) {
    '/' !in s
  }

  lemma {:induction false} ReplacedHasNoSlash(s: string)
    ensures NoSlash(Replaced(s, '/', "~1"))
  {
    if s != [] { ReplacedHasNoSlash(s[1..]); }
  }

  lemma SegmentHasNoSlash(key: string)
    ensures NoSlash(Segment(key))
  {
    ReplacedHasNoSlash(Replaced(key, '~', "~0"));
  }

  /** Different keys have different segments. */
  lemma SegmentsApart(a: string, b: string)
    requires Segment(a) == Segment(b)
    ensures a == b
  {
    SegmentDecodes(a);
    SegmentDecodes(b);
  }

  // ---------------------------------------------------------------- list positions

  function Digit(n: nat): char
    requires n < 10
  {
    "0123456789"[n]
  }

  function Decimal(n: nat): string {
    if n < 10 then [Digit(n)] else Decimal(n / 10) + [Digit(n % 10)]
  }

  lemma {:induction false} DecimalFacts(n: nat)
    ensures NoSlash(Decimal(n)) && Decimal(n) != []
  {
    if n >= 10 { DecimalFacts(n / 10); }
  }

  /** The number that a row of digits stands for. */
  ghost function ValueOf(digits: string): int {
    if digits == [] then 0 else 10 * ValueOf(digits[..|digits| - 1]) + (digits[|digits| - 1] as int - '0' as int)
  }

  /** The segment of a position is its number in digits, without leading zeros, as
      section 4 of RFC 6901 asks for. */
  lemma {:induction false} DecimalIs(n: nat)
    ensures var s := Decimal(n);
      && s != [] && (forall i :: 0 <= i < |s| ==> '0' <= s[i] <= '9') && ValueOf(s) == n && (n > 0 ==> s[0] != '0')
  {
    if n < 10 {
      var s := Decimal(n);
      assert s[..0] == [] && s[0] as int == '0' as int + n;
    } else {
      DecimalIs(n / 10);
      var s := Decimal(n);
      assert s[..|s| - 1] == Decimal(n / 10) && Digit(n % 10) as int == '0' as int + n % 10;
    }
  }

  lemma {:induction false} DecimalsApart(a: nat, b: nat)
    requires Decimal(a) == Decimal(b)
    ensures a == b
  {
    if a >= 10 && b >= 10 {
      assert Decimal(a)[..|Decimal(a)| - 1] == Decimal(a / 10) && Decimal(b)[..|Decimal(b)| - 1] == Decimal(b / 10);
      assert Decimal(a)[|Decimal(a)| - 1] == Digit(a % 10) && Decimal(b)[|Decimal(b)| - 1] == Digit(b % 10);
      DecimalsApart(a / 10, b / 10);
    } else {
      DecimalLength(a);
      DecimalLength(b);
    }
  }

  lemma DecimalLength(n: nat)
    ensures |Decimal(n)| == 1 <==> n < 10
  {
    if n >= 10 { DecimalFacts(n / 10); }
  }

  // ---------------------------------------------------------------- paths

  function ChildPath(path: string, segment: string): string {
    path + "/" + segment
  }

  /** `p` is `base` or leads on from it. */
  predicate Under(p: string, base: string) {
    base <= p && (|p| == |base| || p[|base|] == '/')
  }

  lemma UnderChild(p: string, path: string, segment: string)
    requires Under(p, ChildPath(path, segment))
    ensures Under(p, path) && p != path
  {
    assert p[..|path|] == ChildPath(path, segment)[..|path|] == path;
    assert p[|path|] == ChildPath(path, segment)[|path|] == '/';
  }

  /** Different segments lead to different places. */
  lemma ChildrenApart(p: string, path: string, a: string, b: string)
    requires NoSlash(a) && NoSlash(b) && Under(p, ChildPath(path, a)) && Under(p, ChildPath(path, b))
    ensures a == b
  {
    var n := |path| + 1;
    assert p[n..][..|a|] == a by { assert ChildPath(path, a)[n..] == a; assert p[..n + |a|][n..] == p[n..][..|a|]; }
    assert p[n..][..|b|] == b by { assert ChildPath(path, b)[n..] == b; assert p[..n + |b|][n..] == p[n..][..|b|]; }
  }
}
