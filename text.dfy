/**
 * String operations of the JavaScript runtime that the modelled code relies on:
 * `toLowerCase`/`toUpperCase` (ASCII letters), `includes`, `join`, `replace`
 * with a doubled quote, decimal rendering and `padStart`, `parseInt`, the `\s`
 * character class, and `Array.prototype.sort` on strings.
 */
module Text {

  import opened Wrappers

  // ---------------------------------------------------------------- case

  function LowerChar(c: char): char
  {
    if 'A' <= c <= 'Z' then (c as int + 32) as char else c
  }

  function UpperChar(c: char): char
  {
    if 'a' <= c <= 'z' then (c as int - 32) as char else c
  }

  /** `s.toLowerCase()` restricted to ASCII letters. */
  function Lower(s: string): (r: string)
    ensures |r| == |s|
    ensures forall i :: 0 <= i < |s| ==> r[i] == LowerChar(s[i])
  {
    seq(|s|, i requires 0 <= i < |s| => LowerChar(s[i]))
  }

  /** `s.toUpperCase()` restricted to ASCII letters. */
  function Upper(s: string): (r: string)
    ensures |r| == |s|
    ensures forall i :: 0 <= i < |s| ==> r[i] == UpperChar(s[i])
  {
    seq(|s|, i requires 0 <= i < |s| => UpperChar(s[i]))
  }

  /** Lower-casing forgets the case of the input: it is idempotent and undoes upper-casing. */
  lemma LowerForgetsCase(s: string)
    ensures Lower(Lower(s)) == Lower(s)
    ensures Lower(Upper(s)) == Lower(s)
  {
  }

  lemma LowerConcat(a: string, b: string)
    ensures Lower(a + b) == Lower(a) + Lower(b)
  {
  }

  // ---------------------------------------------------------------- includes

  /** `pat` occurs in `text` starting at position `i`. */
  ghost predicate OccursAt(text: string, pat: string, i: int)
  {
    0 <= i && i + |pat| <= |text| && text[i..i + |pat|] == pat
  }

  /** `text.includes(pat)`, scanning from the left. */
  function Includes(text: string, pat: string): bool
    decreases |text|
  {
    if |pat| > |text| then false
    else if text[..|pat|] == pat then true
    else Includes(text[1..], pat)
  }

  /** The scan finds `pat` exactly when `pat` occurs somewhere in `text`. */
  lemma {:induction false} IncludesIff(text: string, pat: string)
    ensures Includes(text, pat) <==> exists i :: OccursAt(text, pat, i)
    decreases |text|
  {
    if |pat| > |text| {
    } else if text[..|pat|] == pat {
      assert OccursAt(text, pat, 0);
    } else {
      IncludesIff(text[1..], pat);
      if Includes(text[1..], pat) {
        var i :| OccursAt(text[1..], pat, i);
        assert text[i + 1..i + 1 + |pat|] == text[1..][i..i + |pat|];
        assert OccursAt(text, pat, i + 1);
      }
      if i :| OccursAt(text, pat, i) {
        assert i != 0;
        assert text[1..][i - 1..i - 1 + |pat|] == text[i..i + |pat|];
        assert OccursAt(text[1..], pat, i - 1);
      }
    }
  }

  // ---------------------------------------------------------------- join

  /** `parts.join(sep)`. */
  function Join(parts: seq<string>, sep: string): string
  {
    if |parts| == 0 then ""
    else if |parts| == 1 then parts[0]
    else parts[0] + sep + Join(parts[1..], sep)
  }

  /** A joined text starts with its first part, followed by the separator when more parts follow. */
  lemma JoinStartsWithFirst(parts: seq<string>, sep: string)
    requires |parts| >= 1
    ensures var r := Join(parts, sep);
      && |r| >= |parts[0]| && r[..|parts[0]|] == parts[0]
      && (|parts| >= 2 ==> |r| >= |parts[0]| + |sep| && r[|parts[0]|..|parts[0]| + |sep|] == sep)
  {
    if |parts| >= 2 {
      var r := parts[0] + sep + Join(parts[1..], sep);
      assert r[..|parts[0]|] == parts[0];
      assert r[|parts[0]|..|parts[0]| + |sep|] == sep;
    }
  }

  /** `Math.min(n, |s|)` elements from the front: `s.slice(0, n)`. */
  function Take<T>(s: seq<T>, n: nat): (r: seq<T>)
    ensures |r| == if n < |s| then n else |s|
    ensures r == s[..|r|]
  {
    if n < |s| then s[..n] else s
  }

  /** `s.slice(a, b)` for non-negative bounds, which the runtime clips to the length. */
  function Slice<T>(s: seq<T>, a: nat, b: nat): (r: seq<T>)
    ensures a <= b <= |s| ==> r == s[a..b]
    ensures |r| <= |s|
  {
    var hi := if b < |s| then b else |s|;
    var lo := if a < hi then a else hi;
    s[lo..hi]
  }

  // ---------------------------------------------------------------- quote doubling

  /** `s.replace(/q/g, qq)`: every `q` doubled. */
  function Double(s: string, q: char): (r: string)
    ensures |r| >= |s|
  {
    if s == [] then []
    else (if s[0] == q then [q, q] else [s[0]]) + Double(s[1..], q)
  }

  /** Reads a doubled text back, turning each `qq` into `q`. */
  function Undouble(s: string, q: char): string
    decreases |s|
  {
    if s == [] then []
    else if s[0] == q && |s| >= 2 && s[1] == q then [q] + Undouble(s[2..], q)
    else [s[0]] + Undouble(s[1..], q)
  }

  /** Every `q` in `t` is one of a pair `qq`: the text cannot close a `q`-quoted field early. */
  predicate Paired(t: string, q: char)
    decreases |t|
  {
    if t == [] then true
    else if t[0] == q then |t| >= 2 && t[1] == q && Paired(t[2..], q)
    else Paired(t[1..], q)
  }

  /** Doubling is undone by `Undouble` and leaves no lone quote. */
  lemma {:induction false} DoubleRoundTrip(s: string, q: char)
    ensures Undouble(Double(s, q), q) == s
    ensures Paired(Double(s, q), q)
  {
    if s != [] {
      DoubleRoundTrip(s[1..], q);
      var rest := Double(s[1..], q);
      if s[0] == q {
        assert Double(s, q) == [q, q] + rest;
        assert (Double(s, q))[2..] == rest;
      } else {
        assert Double(s, q) == [s[0]] + rest;
        assert (Double(s, q))[1..] == rest;
      }
    }
  }

  /** `q + s.replace(/q/g, qq) + q`: a `q`-quoted field. */
  function Quoted(s: string, q: char): (r: string)
    ensures |r| >= 2 && r[0] == q && r[|r| - 1] == q
  {
    [q] + Double(s, q) + [q]
  }

  /** The quoted field has no lone quote inside, and stripping the quotes and un-doubling gives `s` back. */
  lemma QuotedRoundTrip(s: string, q: char)
    ensures var t := Quoted(s, q); Paired(t[1..|t| - 1], q) && Undouble(t[1..|t| - 1], q) == s
  {
    var t := Quoted(s, q);
    assert t[1..|t| - 1] == Double(s, q);
    DoubleRoundTrip(s, q);
  }

  // ---------------------------------------------------------------- decimal text

  function DigitChar(d: nat): char
    requires d < 10
  {
    ('0' as int + d) as char
  }

  /** `String(n)` for a natural number: its decimal digits, most significant first. */
  function NatToDecimal(n: nat): (r: string)
    ensures |r| >= 1
    decreases n
  {
    if n < 10 then [DigitChar(n)] else NatToDecimal(n / 10) + [DigitChar(n % 10)]
  }

  function Repeat(c: char, k: nat): (r: string)
    ensures |r| == k
    ensures forall i :: 0 <= i < k ==> r[i] == c
  {
    if k == 0 then [] else [c] + Repeat(c, k - 1)
  }

  /** `s.padStart(width, c)` for a one-character pad: `c` repeated in front up to `width`. */
  function PadStart(s: string, width: nat, c: char): (r: string)
    ensures |r| == if |s| >= width then |s| else width
    ensures r[|r| - |s|..] == s
    ensures forall i :: 0 <= i < |r| - |s| ==> r[i] == c
  {
    if |s| >= width then s else Repeat(c, width - |s|) + s
  }

  // ---------------------------------------------------------------- parseInt

  /** The `\s` class of JavaScript regular expressions (white space and line terminators). */
  predicate IsSpace(c: char)
  {
    var k := c as int;
    k == 0x09 || k == 0x0A || k == 0x0B || k == 0x0C || k == 0x0D || k == 0x20
    || k == 0xA0 || k == 0x1680 || (0x2000 <= k <= 0x200A) || k == 0x2028 || k == 0x2029
    || k == 0x202F || k == 0x205F || k == 0x3000 || k == 0xFEFF
  }

  /** The value of an alphanumeric digit (0-35); 36 for any other character. */
  function DigitValue(c: char): nat
  {
    if '0' <= c <= '9' then c as int - '0' as int
    else if 'a' <= c <= 'z' then c as int - 'a' as int + 10
    else if 'A' <= c <= 'Z' then c as int - 'A' as int + 10
    else 36
  }

  predicate AllDigits(s: string, radix: nat)
  {
    forall i :: 0 <= i < |s| ==> DigitValue(s[i]) < radix
  }

  /** Leading white space removed. */
  function DropSpaces(s: string): (r: string)
    ensures |r| <= |s| && r == s[|s| - |r|..]
    ensures r == [] || !IsSpace(r[0])
    ensures forall i :: 0 <= i < |s| - |r| ==> IsSpace(s[i])
  {
    if s != [] && IsSpace(s[0]) then DropSpaces(s[1..]) else s
  }

  /** The longest prefix of `s` made of digits of the radix. */
  function DigitPrefix(s: string, radix: nat): (r: string)
    ensures |r| <= |s| && r == s[..|r|]
    ensures AllDigits(r, radix)
    ensures |r| < |s| ==> DigitValue(s[|r|]) >= radix
  {
    if s != [] && DigitValue(s[0]) < radix then [s[0]] + DigitPrefix(s[1..], radix) else []
  }

  /** The number a digit string denotes in the radix. */
  function DigitsValue(z: string, radix: nat): nat
    requires AllDigits(z, radix)
  {
    if z == [] then 0 else DigitsValue(z[..|z| - 1], radix) * radix + DigitValue(z[|z| - 1])
  }

  /**
   * `parseInt(s, radix)`: skip leading white space, read one optional sign,
   * drop a `0x`/`0X` prefix when the radix is 16, then read the longest run of
   * digits. No digit at all gives NaN (`None`). `-0` is read as 0.
   */
  function ParseInt(s: string, radix: nat): (r: Option<int>)
    requires 2 <= radix <= 36
  {
    var t := DropSpaces(s);
    var negative := |t| > 0 && t[0] == '-';
    var u := if |t| > 0 && (t[0] == '-' || t[0] == '+') then t[1..] else t;
    var v := if radix == 16 && |u| >= 2 && u[0] == '0' && (u[1] == 'x' || u[1] == 'X') then u[2..] else u;
    var z := DigitPrefix(v, radix);
    var magnitude: int := DigitsValue(z, radix);
    if z == [] then None else Some(if negative then -magnitude else magnitude)
  }

  /**
   * `parseInt` gives a number only when the text holds a digit of the radix,
   * and a negative one only when it holds a minus sign.
   */
  lemma ParseIntNeedsDigit(s: string, radix: nat)
    requires 2 <= radix <= 36
    ensures ParseInt(s, radix).Some? ==> exists k :: 0 <= k < |s| && DigitValue(s[k]) < radix
    ensures ParseInt(s, radix).Some? && ParseInt(s, radix).value < 0 ==> exists k :: 0 <= k < |s| && s[k] == '-'
  {
    var t := DropSpaces(s);
    var i := |s| - |t|;
    var signed := |t| > 0 && (t[0] == '-' || t[0] == '+');
    var u := if signed then t[1..] else t;
    var j := if signed then i + 1 else i;
    var prefixed := radix == 16 && |u| >= 2 && u[0] == '0' && (u[1] == 'x' || u[1] == 'X');
    var v := if prefixed then u[2..] else u;
    var m := if prefixed then j + 2 else j;
    var z := DigitPrefix(v, radix);
    assert ParseInt(s, radix).Some? ==> z != [];
    assert ParseInt(s, radix).Some? && ParseInt(s, radix).value < 0 ==> |t| > 0 && t[0] == '-';
    if z != [] {
      DigitPrefixHead(v, radix);
      assert v[0] == s[m];
    }
    if |t| > 0 && t[0] == '-' {
      assert s[i] == '-';
    }
  }

  /** A non-empty digit prefix starts with a digit of the radix. */
  lemma DigitPrefixHead(v: string, radix: nat)
    requires DigitPrefix(v, radix) != []
    ensures v != [] && DigitValue(v[0]) < radix
  {
  }

  lemma {:induction false} AllDigitsPrefix(s: string, radix: nat)
    requires AllDigits(s, radix)
    ensures DigitPrefix(s, radix) == s
    decreases |s|
  {
    if s != [] {
      AllDigitsPrefix(s[1..], radix);
    }
  }

  lemma {:induction false} DecimalDigits(n: nat)
    ensures AllDigits(NatToDecimal(n), 10)
    ensures DigitsValue(NatToDecimal(n), 10) == n
    decreases n
  {
    var r := NatToDecimal(n);
    if n >= 10 {
      DecimalDigits(n / 10);
      assert r[..|r| - 1] == NatToDecimal(n / 10);
    }
  }

  lemma {:induction false} LeadingZeros(k: nat, s: string)
    requires AllDigits(s, 10)
    ensures AllDigits(Repeat('0', k) + s, 10)
    ensures DigitsValue(Repeat('0', k) + s, 10) == DigitsValue(s, 10)
    decreases |s|
  {
    var z := Repeat('0', k);
    if s == [] {
      assert z + s == z;
      ZerosValue(k);
    } else {
      var init := s[..|s| - 1];
      LeadingZeros(k, init);
      assert (z + s)[..|z + s| - 1] == z + init;
    }
  }

  lemma {:induction false} ZerosValue(k: nat)
    ensures AllDigits(Repeat('0', k), 10)
    ensures DigitsValue(Repeat('0', k), 10) == 0
  {
    if k > 0 {
      ZerosValue(k - 1);
      var z := Repeat('0', k);
      assert z[..k - 1] == Repeat('0', k - 1) by {
        assert forall i :: 0 <= i < k - 1 ==> z[i] == '0';
      }
    }
  }

  /** A text that starts with a digit other than a `0x` prefix is read from its first character. */
  lemma ParseFromStart(p: string, radix: nat)
    requires 2 <= radix <= 36
    requires |p| > 0 && !IsSpace(p[0]) && p[0] != '-' && p[0] != '+'
    requires |p| >= 2 ==> p[1] != 'x' && p[1] != 'X'
    requires DigitValue(p[0]) < radix
    ensures ParseInt(p, radix) == Some(DigitsValue(DigitPrefix(p, radix), radix))
  {
    assert DropSpaces(p) == p;
  }

  /** A non-empty run of digits is read as the number it denotes (radix up to 16). */
  lemma ParseDigits(p: string, radix: nat)
    requires 2 <= radix <= 16
    requires |p| > 0 && AllDigits(p, radix)
    ensures ParseInt(p, radix) == Some(DigitsValue(p, radix))
  {
    assert DigitValue(p[0]) < radix;
    assert |p| >= 2 ==> DigitValue(p[1]) < radix;
    ParseFromStart(p, radix);
    AllDigitsPrefix(p, radix);
  }

  /** A zero-padded decimal rendering is a digit string denoting the number. */
  lemma PaddedDigits(n: nat, width: nat)
    ensures AllDigits(PadStart(NatToDecimal(n), width, '0'), 10)
    ensures DigitsValue(PadStart(NatToDecimal(n), width, '0'), 10) == n
  {
    DecimalDigits(n);
    PadWithZeros(NatToDecimal(n), width);
  }

  /** Zeros put in front of a decimal digit string do not change its value. */
  lemma PadWithZeros(d: string, width: nat)
    requires AllDigits(d, 10)
    ensures AllDigits(PadStart(d, width, '0'), 10)
    ensures DigitsValue(PadStart(d, width, '0'), 10) == DigitsValue(d, 10)
  {
    if |d| < width {
      LeadingZeros(width - |d|, d);
    }
  }

  /** A digit is not white space. */
  lemma DigitIsNoSpace(c: char)
    requires DigitValue(c) < 36
    ensures !IsSpace(c)
  {
  }

  /** Reading back a zero-padded decimal rendering gives the number. */
  lemma PaddedDecimalRoundTrip(n: nat, width: nat)
    ensures ParseInt(PadStart(NatToDecimal(n), width, '0'), 10) == Some(n)
  {
    PaddedDigits(n, width);
    ParseDigits(PadStart(NatToDecimal(n), width, '0'), 10);
  }

  function Pow10(k: nat): nat
  {
    if k == 0 then 1 else 10 * Pow10(k - 1)
  }

  /** A number below `10^k` has at most `k` decimal digits. */
  lemma {:induction false} DecimalLength(n: nat, k: nat)
    requires k >= 1 && n < Pow10(k)
    ensures |NatToDecimal(n)| <= k
    decreases k
  {
    if n >= 10 {
      assert k >= 2;
      DecimalLength(n / 10, k - 1);
    }
  }

  /** Digit strings of one length denoting the same number are equal. */
  lemma {:induction false} DigitsInjective(a: string, b: string)
    requires |a| == |b| && AllDigits(a, 10) && AllDigits(b, 10)
    requires DigitsValue(a, 10) == DigitsValue(b, 10)
    ensures a == b
    decreases |a|
  {
    if a != [] {
      var a', b' := a[..|a| - 1], b[..|b| - 1];
      var da, db := DigitValue(a[|a| - 1]), DigitValue(b[|b| - 1]);
      assert DigitsValue(a, 10) == DigitsValue(a', 10) * 10 + da;
      assert DigitsValue(b, 10) == DigitsValue(b', 10) * 10 + db;
      assert da == db && DigitsValue(a', 10) == DigitsValue(b', 10);
      DigitsInjective(a', b');
      assert a[|a| - 1] == b[|b| - 1];
      assert a == a' + [a[|a| - 1]] && b == b' + [b[|b| - 1]];
    }
  }

  /** A common prefix keeps the order of what follows it. */
  lemma {:induction false} BeforeCommonPrefix(p: string, u: string, v: string)
    requires Before(u, v)
    ensures Before(p + u, p + v)
    decreases |p|
  {
    if p != [] {
      BeforeCommonPrefix(p[1..], u, v);
      var pu, pv := p + u, p + v;
      assert pu[1..] == p[1..] + u && pv[1..] == p[1..] + v;
      assert Before(pu[1..], pv[1..]);
      assert pu[0] == pv[0];
    } else {
      assert p + u == u && p + v == v;
    }
  }

  /**
   * Of two digit strings of one length, the one denoting the smaller number
   * comes first in string order, whatever follows each of them.
   */
  lemma {:induction false} DigitOrder(a: string, b: string, x: string, y: string)
    requires |a| == |b| && AllDigits(a, 10) && AllDigits(b, 10)
    requires DigitsValue(a, 10) < DigitsValue(b, 10)
    ensures Before(a + x, b + y)
    decreases |a|
  {
    var a', b' := a[..|a| - 1], b[..|b| - 1];
    var ca, cb := a[|a| - 1], b[|b| - 1];
    var va, vb := DigitsValue(a', 10), DigitsValue(b', 10);
    assert DigitsValue(a, 10) == va * 10 + DigitValue(ca);
    assert DigitsValue(b, 10) == vb * 10 + DigitValue(cb);
    assert a + x == a' + ([ca] + x) && b + y == b' + ([cb] + y) by {
      assert a == a' + [ca] && b == b' + [cb];
    }
    if va < vb {
      DigitOrder(a', b', [ca] + x, [cb] + y);
    } else if va == vb {
      DigitsInjective(a', b');
      assert DigitValue(ca) < DigitValue(cb);
      assert '0' <= ca <= '9' && '0' <= cb <= '9';
      assert Before([ca] + x, [cb] + y);
      BeforeCommonPrefix(a', [ca] + x, [cb] + y);
    } else {
      assert false;
    }
  }

  // ---------------------------------------------------------------- white-space runs

  /** `s.replace(/\s+/g, rep)`: every maximal run of white space becomes one `rep`. */
  function CollapseSpaces(s: string, rep: string): string
    decreases |s|
  {
    if s == [] then []
    else if IsSpace(s[0]) then rep + CollapseSpaces(DropSpaces(s[1..]), rep)
    else [s[0]] + CollapseSpaces(s[1..], rep)
  }

  predicate NoSpaces(s: string)
  {
    forall i :: 0 <= i < |s| ==> !IsSpace(s[i])
  }

  /** With a replacement free of white space, none is left; text without white space is unchanged. */
  lemma {:induction false} CollapseSpacesClean(s: string, rep: string)
    requires NoSpaces(rep)
    ensures NoSpaces(CollapseSpaces(s, rep))
    ensures NoSpaces(s) ==> CollapseSpaces(s, rep) == s
    decreases |s|
  {
    if s != [] {
      if IsSpace(s[0]) {
        CollapseSpacesClean(DropSpaces(s[1..]), rep);
      } else {
        CollapseSpacesClean(s[1..], rep);
        if NoSpaces(s) {
          assert NoSpaces(s[1..]);
        }
      }
    }
  }

  /** One run of white space between two space-free parts becomes exactly one `rep`. */
  lemma {:induction false} RunBecomesOne(a: string, w: string, b: string, rep: string)
    requires NoSpaces(a) && NoSpaces(b) && NoSpaces(rep)
    requires w != [] && forall i :: 0 <= i < |w| ==> IsSpace(w[i])
    ensures CollapseSpaces(a + w + b, rep) == a + rep + b
    decreases |a|
  {
    if a == [] {
      assert a + w + b == w + b;
      RunAtFront(w, b, rep);
    } else {
      var t := a[1..] + w + b;
      assert a + w + b == [a[0]] + t;
      CollapseKeepsHead(a[0], t, rep);
      RunBecomesOne(a[1..], w, b, rep);
      assert [a[0]] + (a[1..] + rep + b) == a + rep + b;
    }
  }

  /** A leading run of white space before space-free text becomes one `rep`. */
  lemma RunAtFront(w: string, b: string, rep: string)
    requires NoSpaces(b) && NoSpaces(rep)
    requires w != [] && forall i :: 0 <= i < |w| ==> IsSpace(w[i])
    ensures CollapseSpaces(w + b, rep) == rep + b
  {
    var s := w + b;
    assert s[0] == w[0] && IsSpace(s[0]);
    assert s[1..] == w[1..] + b;
    DropRun(w[1..], b);
    CollapseSpacesClean(b, rep);
    assert CollapseSpaces(s, rep) == rep + CollapseSpaces(DropSpaces(s[1..]), rep);
  }

  /** A character that is not white space is kept in front. */
  lemma CollapseKeepsHead(c: char, t: string, rep: string)
    requires !IsSpace(c)
    ensures CollapseSpaces([c] + t, rep) == [c] + CollapseSpaces(t, rep)
  {
    assert ([c] + t)[0] == c && ([c] + t)[1..] == t;
  }

  /** Dropping leading white space from a run followed by space-free text leaves that text. */
  lemma {:induction false} DropRun(w: string, b: string)
    requires NoSpaces(b) && forall i :: 0 <= i < |w| ==> IsSpace(w[i])
    ensures DropSpaces(w + b) == b
    decreases |w|
  {
    if w == [] {
      assert w + b == b;
      assert b == [] || !IsSpace(b[0]);
    } else {
      var s := w + b;
      assert s[0] == w[0] && IsSpace(s[0]);
      assert s[1..] == w[1..] + b;
      DropRun(w[1..], b);
      assert DropSpaces(s) == DropSpaces(s[1..]);
    }
  }

  // ---------------------------------------------------------------- ordering and sort

  /** The UTF-16 code units of one character: itself below U+10000, otherwise a surrogate pair. */
  function Utf16(c: char): (u: seq<int>)
    ensures 1 <= |u| <= 2
    ensures |u| == 1 <==> c as int < 0x1_0000
  {
    if c as int < 0x1_0000 then [c as int]
    else [0xD800 + (c as int - 0x1_0000) / 0x400, 0xDC00 + (c as int - 0x1_0000) % 0x400]
  }

  /** The code units of a string, which JavaScript's `<` and `sort` compare. */
  function CodeUnits(s: string): seq<int>
    decreases |s|
  {
    if s == [] then [] else Utf16(s[0]) + CodeUnits(s[1..])
  }

  /** Lexicographic order on code-unit sequences, a proper prefix first. */
  predicate UnitsBefore(x: seq<int>, y: seq<int>)
    decreases |x|
  {
    |y| > 0 && (|x| == 0 || x[0] < y[0] || (x[0] == y[0] && UnitsBefore(x[1..], y[1..])))
  }

  /**
   * Where a character falls in code-unit order: below U+D800 it is itself;
   * characters above U+FFFF (led by a surrogate, U+D800..U+DBFF) come next;
   * U+E000..U+FFFF come last.
   */
  function UnitRank(c: char): (r: int)
    ensures c as int < 0xD800 ==> r == c as int
  {
    if c as int < 0xD800 then c as int
    else if c as int < 0x1_0000 then c as int + 0x10_0000
    else c as int - 0x1_0000 + 0xD800
  }

  /** `a < b` on JavaScript strings: lexicographic on code units, a proper prefix first. */
  predicate Before(a: string, b: string)
    decreases |a|
  {
    |b| > 0 && (|a| == 0 || UnitRank(a[0]) < UnitRank(b[0]) || (a[0] == b[0] && Before(a[1..], b[1..])))
  }

  /** Distinct characters have distinct ranks. */
  lemma UnitRankInjective(c: char, d: char)
    requires c != d
    ensures UnitRank(c) != UnitRank(d)
  {
  }

  /** A common prefix decides nothing in code-unit order. */
  lemma {:induction false} UnitsBeforeCommonPrefix(p: seq<int>, x: seq<int>, y: seq<int>)
    ensures UnitsBefore(p + x, p + y) <==> UnitsBefore(x, y)
    decreases |p|
  {
    if p == [] {
      assert p + x == x && p + y == y;
    } else {
      UnitsBeforeCommonPrefix(p[1..], x, y);
      assert (p + x)[1..] == p[1..] + x && (p + y)[1..] == p[1..] + y;
    }
  }

  /** Two distinct characters are ordered by their code units, whatever follows them. */
  lemma CharUnitOrder(c: char, d: char, x: seq<int>, y: seq<int>)
    requires c != d
    ensures UnitsBefore(Utf16(c) + x, Utf16(d) + y) <==> UnitRank(c) < UnitRank(d)
  {
    var u, v := Utf16(c) + x, Utf16(d) + y;
    var m, n := c as int, d as int;
    assert u[0] == Utf16(c)[0] && v[0] == Utf16(d)[0];
    if m >= 0x1_0000 && n >= 0x1_0000 && (m - 0x1_0000) / 0x400 == (n - 0x1_0000) / 0x400 {
      assert u[1..][0] == Utf16(c)[1] && v[1..][0] == Utf16(d)[1];
      assert (m - 0x1_0000) % 0x400 != (n - 0x1_0000) % 0x400;
    }
  }

  /** A character above U+FFFF sorts before U+FF21, as its leading surrogate does. */
  lemma AstralBeforeFullwidth()
    ensures Before("\U{1F600}", "\U{FF21}") && !Before("\U{FF21}", "\U{1F600}")
    ensures UnitsBefore(CodeUnits("\U{1F600}"), CodeUnits("\U{FF21}"))
  {
    BeforeIsCodeUnitOrder("\U{1F600}", "\U{FF21}");
  }

  /** The string order is exactly JavaScript's: lexicographic on UTF-16 code units. */
  lemma {:induction false} BeforeIsCodeUnitOrder(a: string, b: string)
    ensures Before(a, b) <==> UnitsBefore(CodeUnits(a), CodeUnits(b))
    decreases |a|
  {
    if a != [] && b != [] {
      if a[0] == b[0] {
        BeforeIsCodeUnitOrder(a[1..], b[1..]);
        UnitsBeforeCommonPrefix(Utf16(a[0]), CodeUnits(a[1..]), CodeUnits(b[1..]));
      } else {
        CharUnitOrder(a[0], b[0], CodeUnits(a[1..]), CodeUnits(b[1..]));
      }
    }
  }

  predicate AtMost(a: string, b: string)
  {
    a == b || Before(a, b)
  }

  lemma {:induction false} BeforeIrreflexive(a: string)
    ensures !Before(a, a)
    decreases |a|
  {
    if |a| > 0 {
      BeforeIrreflexive(a[1..]);
    }
  }

  lemma {:induction false} BeforeTransitive(a: string, b: string, c: string)
    requires Before(a, b) && Before(b, c)
    ensures Before(a, c)
    decreases |a|
  {
    if |a| > 0 && a[0] == c[0] {
      BeforeTransitive(a[1..], b[1..], c[1..]);
    }
  }

  lemma {:induction false} BeforeTotal(a: string, b: string)
    ensures a == b || Before(a, b) || Before(b, a)
    decreases |a|
  {
    if |a| > 0 && |b| > 0 && a[0] == b[0] {
      BeforeTotal(a[1..], b[1..]);
      if a[1..] == b[1..] {
        assert a == [a[0]] + a[1..] && b == [b[0]] + b[1..];
      }
    }
  }

  lemma BeforeAsymmetric(a: string, b: string)
    requires Before(a, b)
    ensures !Before(b, a)
  {
    if Before(b, a) {
      BeforeTransitive(a, b, a);
      BeforeIrreflexive(a);
    }
  }

  lemma AtMostTransitive(a: string, b: string, c: string)
    requires AtMost(a, b) && AtMost(b, c)
    ensures AtMost(a, c)
  {
    if a != b && b != c {
      BeforeTransitive(a, b, c);
    }
  }

  /** Non-decreasing under the string order. */
  ghost predicate Sorted(s: seq<string>)
  {
    forall i, j :: 0 <= i < j < |s| ==> AtMost(s[i], s[j])
  }

  /** Strictly increasing: sorted and free of repeats. */
  ghost predicate StrictlySorted(s: seq<string>)
  {
    forall i, j :: 0 <= i < j < |s| ==> Before(s[i], s[j])
  }

  function Insert(x: string, s: seq<string>): (r: seq<string>)
    requires Sorted(s)
    ensures Sorted(r)
    ensures multiset(r) == multiset(s) + multiset{x}
  {
    if s == [] then [x]
    else if AtMost(x, s[0]) then
      InsertFront(x, s);
      [x] + s
    else
      var rest := Insert(x, s[1..]);
      assert Before(s[0], x) by { BeforeTotal(x, s[0]); }
      HeadAtMost(s);
      assert s == [s[0]] + s[1..];
      LowerBound(s[0], rest, s[1..], x);
      [s[0]] + rest
  }

  lemma InsertFront(x: string, s: seq<string>)
    requires Sorted(s) && s != [] && AtMost(x, s[0])
    ensures Sorted([x] + s)
  {
    forall j | 0 <= j < |s| ensures AtMost(x, s[j]) {
      if j > 0 { AtMostTransitive(x, s[0], s[j]); }
    }
  }

  lemma HeadAtMost(s: seq<string>)
    requires Sorted(s) && s != []
    ensures forall y :: y in s[1..] ==> AtMost(s[0], y)
  {
    forall y | y in s[1..] ensures AtMost(s[0], y) {
      var m :| 0 <= m < |s[1..]| && s[1..][m] == y;
      assert s[m + 1] == y;
    }
  }

  /** A sorted sequence stays sorted behind a value no greater than any of its elements. */
  lemma LowerBound(h: string, rest: seq<string>, tail: seq<string>, x: string)
    requires Sorted(rest) && multiset(rest) == multiset(tail) + multiset{x}
    requires AtMost(h, x) && forall y :: y in tail ==> AtMost(h, y)
    ensures Sorted([h] + rest)
  {
    forall k | 0 <= k < |rest| ensures AtMost(h, rest[k]) {
      assert rest[k] in multiset(rest);
      if rest[k] != x {
        assert rest[k] in multiset(tail);
      }
    }
  }

  /** `strings.sort()` with the default comparator. */
  function Sort(s: seq<string>): (r: seq<string>)
    ensures Sorted(r)
    ensures multiset(r) == multiset(s)
  {
    if s == [] then []
    else
      assert s == [s[0]] + s[1..];
      Insert(s[0], Sort(s[1..]))
  }

  /** `[...new Set(s)]`: the first occurrence of every value, in order. */
  function Dedup(s: seq<string>): (r: seq<string>)
    ensures forall x :: x in r <==> x in s
    ensures forall i, j :: 0 <= i < j < |r| ==> r[i] != r[j]
  {
    if s == [] then []
    else
      var init := Dedup(s[..|s| - 1]);
      var last := s[|s| - 1];
      assert s == s[..|s| - 1] + [last];
      assert forall x :: x in s <==> x in s[..|s| - 1] || x == last;
      if last in init then init else init + [last]
  }

  /** A sorted sequence without repeats is strictly sorted. */
  lemma SortedDistinctIsStrict(s: seq<string>)
    requires Sorted(s)
    requires forall i, j :: 0 <= i < j < |s| ==> s[i] != s[j]
    ensures StrictlySorted(s)
  {
  }

  /** Two strictly sorted sequences with the same elements are equal. */
  lemma {:induction false} StrictlySortedUnique(a: seq<string>, b: seq<string>)
    requires StrictlySorted(a) && StrictlySorted(b)
    requires forall x :: x in a <==> x in b
    ensures a == b
    decreases |a|
  {
    if a != [] { assert a[0] in b; }
    if b != [] { assert b[0] in a; }
    if a != [] && b != [] {
      if a[0] != b[0] {
        var i :| 0 <= i < |b| && b[i] == a[0];
        var j :| 0 <= j < |a| && a[j] == b[0];
        assert Before(b[0], a[0]) && Before(a[0], b[0]);
        BeforeAsymmetric(b[0], a[0]);
      }
      forall x | x in a[1..] ensures x in b[1..] {
        var k :| 1 <= k < |a| && a[k] == x;
        assert Before(a[0], x);
        assert x in a && x in b;
        var m :| 0 <= m < |b| && b[m] == x;
        if m == 0 { BeforeIrreflexive(x); }
      }
      forall x | x in b[1..] ensures x in a[1..] {
        var k :| 1 <= k < |b| && b[k] == x;
        assert Before(b[0], x);
        assert x in b && x in a;
        var m :| 0 <= m < |a| && a[m] == x;
        if m == 0 { BeforeIrreflexive(x); }
      }
      StrictlySortedUnique(a[1..], b[1..]);
      assert a == [a[0]] + a[1..] && b == [b[0]] + b[1..];
    }
  }
}
