/** compactIEEE, the canonical form of a device address that keys the registry. */
module Ieee {
  import opened Strings

  function CompactIEEE(s: string): string {
    Without(TrimPrefix(ToLower(s), "0x"), ':')
  }

  /** The address as sixteen lower-case hexadecimal digits. */
  predicate Canonical(key: string) {
    |key| == 16 && forall c :: c in key ==> LowerHex(c)
  }

  predicate LowerHex(c: char) { '0' <= c <= '9' || 'a' <= c <= 'f' }

  predicate Hex(c: char) { LowerHex(c) || 'A' <= c <= 'F' }

  predicate HexOrColon(c: char) { Hex(c) || c == ':' }

  /** What people write for an address: hexadecimal digits and colons, perhaps after 0x. */
  predicate Written(s: string) {
    forall c :: c in TrimPrefix(ToLower(s), "0x") ==> LowerHex(c) || c == ':'
  }

  /** isZeroIEEE: not sixteen characters, or all of them zero. */
  predicate IsZeroIEEE(ieee: string) {
    var key := CompactIEEE(ieee);
    |key| != 16 || forall c :: c in key ==> c == '0'
  }

  lemma {:induction false} WithoutLower(s: string)
    requires ToLower(s) == s
    ensures ToLower(Without(s, ':')) == Without(s, ':')
  {
    forall i | 0 <= i < |Without(s, ':')|
      ensures LowerChar(Without(s, ':')[i]) == Without(s, ':')[i]
    {
      assert Without(s, ':')[i] in s;
      var j :| 0 <= j < |s| && s[j] == Without(s, ':')[i];
      assert ToLower(s)[j] == LowerChar(s[j]);
    }
  }

  lemma CompactIsLower(s: string)
    ensures ToLower(CompactIEEE(s)) == CompactIEEE(s)
  {
    var t := TrimPrefix(ToLower(s), "0x");
    forall i | 0 <= i < |t| ensures LowerChar(t[i]) == t[i] {
      assert t[i] in ToLower(s);
    }
    assert ToLower(t) == t;
    WithoutLower(t);
  }

  function DropColons(s: string): string {
    if s != [] && s[0] == ':' then DropColons(s[1..]) else s
  }

  /** After the first prefix is gone, colons apart, the text goes on with another "0x". */
  predicate SecondPrefix(s: string) {
    var t := DropColons(TrimPrefix(ToLower(s), "0x"));
    && t != [] && t[0] == '0'
    && var u := DropColons(t[1..]); u != [] && u[0] == 'x'
  }

  /** What is left without colons begins with the first character that is not a colon. */
  lemma {:induction false} WithoutHead(t: string)
    ensures var d := DropColons(t);
            Without(t, ':') == if d == [] then [] else [d[0]] + Without(d[1..], ':')
  {
    if t != [] && t[0] == ':' { WithoutHead(t[1..]); }
  }

  lemma StartsWith(c: string)
    ensures "0x" <= c <==> |c| >= 2 && c[0] == '0' && c[1] == 'x'
  {
    var p := "0x";
    assert p <= c <==> |c| >= 2 && forall i :: 0 <= i < 2 ==> c[i] == p[i];
  }

  /**
   Compacting twice is compacting once exactly when no second "0x" comes to the front, as it does for
   inputs such as "0x0x12" and "0:x12".
   */
  lemma CompactIdempotentIff(s: string)
    ensures CompactIEEE(CompactIEEE(s)) == CompactIEEE(s) <==> !SecondPrefix(s)
  {
    var t := TrimPrefix(ToLower(s), "0x");
    WithoutHead(t);
    if DropColons(t) != [] { WithoutHead(DropColons(t)[1..]); }
    StartsWith(CompactIEEE(s));
    IdempotentUnprefixed(s);
  }

  lemma IdempotentUnprefixed(s: string)
    ensures CompactIEEE(CompactIEEE(s)) == CompactIEEE(s) <==> !("0x" <= CompactIEEE(s))
  {
    var c := CompactIEEE(s);
    CompactIsLower(s);
    WithoutAbsent(c, ':');
    if "0x" <= c {
      WithoutAbsent(c[2..], ':');
      assert |c[2..]| < |c|;
    }
  }

  lemma CompactNotAlwaysIdempotent()
    ensures CompactIEEE("0x0x12") == "0x12" && CompactIEEE("0x12") == "12"
    ensures CompactIEEE("0:x12") == "0x12"
  {
    assert ToLower("0x0x12") == "0x0x12" && ToLower("0x12") == "0x12" && ToLower("0:x12") == "0:x12";
    WithoutAbsent("0x12", ':');
    WithoutAbsent("12", ':');
    assert "0:x12"[1..] == ":x12" && "0:x12"[1..][1..] == "x12";
    WithoutAbsent("x12", ':');
  }

  /** On written addresses the compact form is digits only and is its own compact form. */
  lemma CompactWritten(s: string)
    requires Written(s)
    ensures forall c :: c in CompactIEEE(s) ==> LowerHex(c)
    ensures CompactIEEE(CompactIEEE(s)) == CompactIEEE(s)
  {
    var c := CompactIEEE(s);
    assert "0x" <= c ==> c[1] in c;
    IdempotentUnprefixed(s);
  }

  /** Sixteen zeros. */
  function Zeros(): string { seq(16, i => '0') }

  /** Of canonical keys only the one of sixteen zeros counts as no address. */
  lemma ZeroIff(key: string)
    requires Canonical(key)
    ensures IsZeroIEEE(key) <==> key == Zeros()
  {
    CompactCanonical(key);
    assert forall i :: 0 <= i < |key| ==> key[i] in key;
  }

  /** A canonical key is its own compact form. */
  lemma CompactCanonical(key: string)
    requires Canonical(key)
    ensures CompactIEEE(key) == key
  {
    assert forall i :: 0 <= i < |key| ==> key[i] in key;
    assert ToLower(key) == key;
    assert !("0x" <= key) by { assert key[1] in key; }
    WithoutAbsent(key, ':');
  }

  predicate Digits(d: string) { forall c :: c in d ==> HexOrColon(c) }

  /** However digits are spelled (colons anywhere, either case, 0x or 0X in front), the compact form is the same. */
  lemma SpellingDoesNotMatter(a: string, b: string)
    requires Digits(a + b)
    ensures CompactIEEE(a + ":" + b) == CompactIEEE(a + b)
    ensures CompactIEEE("0x" + (a + b)) == CompactIEEE(a + b)
    ensures CompactIEEE("0X" + (a + b)) == CompactIEEE(a + b)
    ensures CompactIEEE(ToUpper(a + b)) == CompactIEEE(a + b)
  {
    ColonDoesNotMatter(a, b);
    Unprefixed(a + b);
    Prefixed("0x", a + b);
    Prefixed("0X", a + b);
    UpperDigits(a + b);
  }

  lemma ColonDoesNotMatter(a: string, b: string)
    requires Digits(a + b)
    ensures CompactIEEE(a + ":" + b) == CompactIEEE(a + b)
  {
    Unprefixed(a + b);
    assert forall c :: c in a + ":" + b ==> c == ':' || c in a + b;
    Unprefixed(a + ":" + b);
    assert ToLower(a + ":" + b) == ToLower(a) + ([':'] + ToLower(b));
    assert ToLower(a + b) == ToLower(a) + ToLower(b);
    WithoutConcat(ToLower(a), [':'] + ToLower(b), ':');
    WithoutConcat(ToLower(a), ToLower(b), ':');
    assert ([':'] + ToLower(b))[1..] == ToLower(b);
  }

  /** Digits and colons never look like a prefix. */
  lemma Unprefixed(d: string)
    requires Digits(d)
    ensures CompactIEEE(d) == Without(ToLower(d), ':')
  {
    assert |d| > 1 ==> d[1] in d;
  }

  lemma Prefixed(p: string, d: string)
    requires p == "0x" || p == "0X"
    ensures CompactIEEE(p + d) == Without(ToLower(d), ':')
  {
    assert ToLower(p + d) == "0x" + ToLower(d);
    assert TrimPrefix("0x" + ToLower(d), "0x") == ToLower(d);
  }

  lemma UpperDigits(d: string)
    requires Digits(d)
    ensures CompactIEEE(ToUpper(d)) == CompactIEEE(d)
  {
    forall i | 0 <= i < |d| ensures LowerChar(UpperChar(d[i])) == LowerChar(d[i]) && HexOrColon(UpperChar(d[i])) {
      assert d[i] in d;
    }
    assert ToLower(ToUpper(d)) == ToLower(d);
    Unprefixed(d);
    Unprefixed(ToUpper(d));
  }

  lemma {:induction false} WithoutConcat(a: string, b: string, c: char)
    ensures Without(a + b, c) == Without(a, c) + Without(b, c)
  {
    if a == [] {
      assert a + b == b;
    } else {
      WithoutConcat(a[1..], b, c);
      assert (a + b)[0] == a[0] && (a + b)[1..] == a[1..] + b;
      var rest, more := Without(a[1..], c), Without(b, c);
      assert [a[0]] + (rest + more) == [a[0]] + rest + more;
    }
  }
}
