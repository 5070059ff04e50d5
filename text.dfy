/** The JavaScript string operations the views rely on, over `seq<char>`:
    `toLowerCase`/`toUpperCase` on ASCII letters, `trim`, `includes`,
    `split(',')`, `join`, and `parseInt(x) || 0`. */
module Text {

  /** The part of the white space `String.prototype.trim` strips that this
      model covers: the ASCII controls, the space, the no-break space and the
      byte-order mark. */
  predicate IsSpace(c: char)
  {
    c == ' ' || c == '\t' || c == '\n' || c == '\r' || c == '\U{000B}' || c == '\U{000C}'
    || c == '\U{00A0}' || c == '\U{FEFF}'
  }

  function TrimStart(s: string): (r: string)
    ensures |r| <= |s| && r == s[|s| - |r|..]
    ensures r == [] || !IsSpace(r[0])
    ensures forall k :: 0 <= k < |s| - |r| ==> IsSpace(s[k])
  {
    if s != [] && IsSpace(s[0]) then TrimStart(s[1..]) else s
  }

  function TrimEnd(s: string): (r: string)
    ensures |r| <= |s| && r == s[..|r|]
    ensures r == [] || !IsSpace(r[|r| - 1])
    ensures forall k :: |r| <= k < |s| ==> IsSpace(s[k])
  {
    if s != [] && IsSpace(s[|s| - 1]) then TrimEnd(s[..|s| - 1]) else s
  }

  /** `s.trim()`: the slice of `s` between its leading and trailing white space. */
  function Trim(s: string): (r: string)
    ensures |r| <= |s|
    ensures r == [] || (!IsSpace(r[0]) && !IsSpace(r[|r| - 1]))
  {
    var t := TrimStart(s);
    var r := TrimEnd(t);
    assert r != [] ==> r[0] == t[0];
    r
  }

  /** `trim` gives the empty string exactly for all-white-space text. */
  lemma TrimEmpty(s: string)
    ensures Trim(s) == [] <==> forall k :: 0 <= k < |s| ==> IsSpace(s[k])
  {
    var t := TrimStart(s);
    if t != [] {
      assert TrimEnd(t)[0] == t[0];
    }
  }

  /** A trimmed string is a fixed point of `trim`. */
  predicate IsTrimmed(s: string)
  {
    s == [] || (!IsSpace(s[0]) && !IsSpace(s[|s| - 1]))
  }

  lemma TrimmedIsFixed(s: string)
    requires IsTrimmed(s)
    ensures Trim(s) == s
  {
  }

  /** One leading space disappears under `trim`. */
  lemma TrimLeadingSpace(s: string)
    requires IsTrimmed(s)
    ensures Trim(" " + s) == s
  {
    assert (" " + s)[1..] == s;
  }

  function LowerChar(c: char): char
  {
    if 'A' <= c <= 'Z' then (c as int + 32) as char else c
  }

  function UpperChar(c: char): char
  {
    if 'a' <= c <= 'z' then (c as int - 32) as char else c
  }

  /** `s.toLowerCase()`, restricted to ASCII letters. */
  function Lower(s: string): (r: string)
    ensures |r| == |s|
    ensures forall i :: 0 <= i < |s| ==> r[i] == LowerChar(s[i])
  {
    seq(|s|, i requires 0 <= i < |s| => LowerChar(s[i]))
  }

  lemma LowerIdempotent(s: string)
    ensures Lower(Lower(s)) == Lower(s)
  {
  }

  /** `hay.includes(needle)`. */
  predicate Contains(hay: string, needle: string)
    decreases |hay|
  {
    needle <= hay || (hay != [] && Contains(hay[1..], needle))
  }

  /** `needle` occurs in `hay` starting at offset `i`. */
  predicate OccursAt(hay: string, needle: string, i: int)
  {
    0 <= i && i + |needle| <= |hay| && hay[i..i + |needle|] == needle
  }

  lemma TailSlice(s: string, i: int, j: int)
    requires 0 <= i <= j <= |s| - 1
    ensures s[1..][i..j] == s[i + 1..j + 1]
  {
    assert forall k :: 0 <= k < j - i ==> s[1..][i..j][k] == s[i + 1 + k];
  }

  /** `includes` holds exactly when the needle occurs at some offset. */
  lemma {:induction false} ContainsIffOccurs(hay: string, needle: string)
    ensures Contains(hay, needle) <==> exists i :: OccursAt(hay, needle, i)
  {
    if needle <= hay {
      assert OccursAt(hay, needle, 0);
    } else if hay == [] {
    } else {
      ContainsIffOccurs(hay[1..], needle);
      if exists i :: OccursAt(hay, needle, i) {
        var i :| OccursAt(hay, needle, i);
        assert i != 0;
        TailSlice(hay, i - 1, i - 1 + |needle|);
        assert OccursAt(hay[1..], needle, i - 1);
      }
      if exists i :: OccursAt(hay[1..], needle, i) {
        var i :| OccursAt(hay[1..], needle, i);
        TailSlice(hay, i, i + |needle|);
        assert OccursAt(hay, needle, i + 1);
      }
    }
  }

  /** `s.split(sep)`: the pieces between separators; always at least one piece. */
  function Split(s: string, sep: char): (r: seq<string>)
    ensures |r| >= 1
    ensures forall i :: 0 <= i < |r| ==> sep !in r[i]
  {
    if s == [] then [""]
    else
      var rest := Split(s[1..], sep);
      if s[0] == sep then [""] + rest else [[s[0]] + rest[0]] + rest[1..]
  }

  /** `xs.join(sep)`. */
  function Join(xs: seq<string>, sep: string): string
  {
    if xs == [] then ""
    else if |xs| == 1 then xs[0]
    else xs[0] + sep + Join(xs[1..], sep)
  }

  lemma {:induction false} SplitNoSeparator(a: string, sep: char)
    requires sep !in a
    ensures Split(a, sep) == [a]
  {
    if a != [] {
      SplitNoSeparator(a[1..], sep);
      assert [a[0]] + a[1..] == a;
    }
  }

  lemma {:induction false} SplitAtSeparator(a: string, b: string, sep: char)
    requires sep !in a
    ensures Split(a + [sep] + b, sep) == [a] + Split(b, sep)
  {
    var s := a + [sep] + b;
    if a == [] {
      assert s[0] == sep && s[1..] == b;
    } else {
      assert s[0] == a[0] && s[1..] == a[1..] + [sep] + b;
      SplitAtSeparator(a[1..], b, sep);
      assert [a[0]] + a[1..] == a;
    }
  }

  /** Joining pieces that contain no separator and splitting again gives them back. */
  lemma {:induction false} SplitJoin(xs: seq<string>, sep: char)
    requires xs != []
    requires forall i :: 0 <= i < |xs| ==> sep !in xs[i]
    ensures Split(Join(xs, [sep]), sep) == xs
  {
    if |xs| == 1 {
      SplitNoSeparator(xs[0], sep);
    } else {
      SplitJoin(xs[1..], sep);
      SplitAtSeparator(xs[0], Join(xs[1..], [sep]), sep);
      assert [xs[0]] + xs[1..] == xs;
    }
  }

  // ---- parseInt(x) || 0 ----

  predicate IsDigit(c: char)
  {
    '0' <= c <= '9'
  }

  function DigitValue(c: char): nat
    requires IsDigit(c)
  {
    c as int - '0' as int
  }

  /** The longest prefix of `s` made of decimal digits. */
  function LeadingDigits(s: string): (r: string)
    ensures r <= s
    ensures forall i :: 0 <= i < |r| ==> IsDigit(r[i])
    ensures |r| < |s| ==> !IsDigit(s[|r|])
  {
    if s != [] && IsDigit(s[0]) then [s[0]] + LeadingDigits(s[1..]) else []
  }

  /** The value of a run of decimal digits, most significant first. */
  function DigitsValue(ds: string): nat
    requires forall i :: 0 <= i < |ds| ==> IsDigit(ds[i])
  {
    if ds == [] then 0 else DigitsValue(ds[..|ds| - 1]) * 10 + DigitValue(ds[|ds| - 1])
  }

  /** `parseInt(s) || 0` in base ten: skip leading white space, read an optional
      sign and the digits that follow; no digits (NaN) gives 0. */
  function ParseIntOrZero(s: string): int
  {
    ReadSigned(TrimStart(s))
  }

  /** An optional sign and the digits that follow it; no digits gives 0. */
  function ReadSigned(u: string): int
  {
    if u != [] && u[0] == '-' then -(DigitsValue(LeadingDigits(u[1..])) as int)
    else if u != [] && u[0] == '+' then DigitsValue(LeadingDigits(u[1..]))
    else DigitsValue(LeadingDigits(u))
  }

  /** The decimal text of a natural number, as `String(n)` writes it. */
  function NatText(n: nat): (r: string)
    ensures r != [] && forall i :: 0 <= i < |r| ==> IsDigit(r[i])
  {
    var d := ['0' + (n % 10) as char];
    if n < 10 then d else NatText(n / 10) + d
  }

  lemma {:induction false} DigitsOfNatText(n: nat)
    ensures DigitsValue(NatText(n)) == n
  {
    var r := NatText(n);
    if n >= 10 {
      DigitsOfNatText(n / 10);
      assert r[..|r| - 1] == NatText(n / 10);
    }
  }

  lemma {:induction false} LeadingDigitsOfDigits(s: string)
    requires forall i :: 0 <= i < |s| ==> IsDigit(s[i])
    ensures LeadingDigits(s) == s
  {
    if s != [] {
      LeadingDigitsOfDigits(s[1..]);
      assert [s[0]] + s[1..] == s;
    }
  }

  /** Parsing the decimal text of a natural number gives the number back. */
  lemma ParseNatText(n: nat)
    ensures ParseIntOrZero(NatText(n)) == n
  {
    var t := NatText(n);
    assert TrimStart(t) == t;
    LeadingDigitsOfDigits(t);
    DigitsOfNatText(n);
  }

  predicate AllDigits(ds: string)
  {
    forall i :: 0 <= i < |ds| ==> IsDigit(ds[i])
  }

  /** What follows a non-digit does not change the leading digits. */
  lemma {:induction false} LeadingDigitsAppend(u: string, rest: string)
    requires rest == [] || !IsDigit(rest[0])
    ensures LeadingDigits(u + rest) == LeadingDigits(u)
  {
    if u == [] {
      assert u + rest == rest;
    } else {
      var w := u + rest;
      assert w[0] == u[0] && w[1..] == u[1..] + rest;
      LeadingDigitsAppend(u[1..], rest);
    }
  }

  /** Trailing white space does not change what `ReadSigned` reads. */
  lemma ReadSignedAppend(u: string, rest: string)
    requires rest == [] || IsSpace(rest[0])
    ensures ReadSigned(u + rest) == ReadSigned(u)
  {
    var w := u + rest;
    if u == [] {
      assert w == rest;
      LeadingDigitsAppend(u, rest);
    } else if u[0] == '-' || u[0] == '+' {
      assert w[0] == u[0] && w[1..] == u[1..] + rest;
      LeadingDigitsAppend(u[1..], rest);
    } else {
      assert w[0] == u[0];
      LeadingDigitsAppend(u, rest);
    }
  }

  /** `parseInt` reads the same number from `s` and from `s.trim()`. */
  lemma ParseIntOfTrim(s: string)
    ensures ParseIntOrZero(s) == ReadSigned(Trim(s))
  {
    var t := TrimStart(s);
    var u := TrimEnd(t);
    var rest := t[|u|..];
    assert u == t[..|u|];
    assert t == t[..|u|] + rest;
    assert rest == [] || IsSpace(t[|u|]);
    ReadSignedAppend(u, rest);
  }

  /** The text after an optional leading sign. */
  function Unsigned(u: string): (r: string)
    ensures |r| <= |u|
  {
    if u != [] && (u[0] == '-' || u[0] == '+') then u[1..] else u
  }

  /** `Number(s)` read as an integer: white space around the text is
      ignored, blank text is 0, an optionally signed run of digits is its
      value, and anything else is NaN. */
  function NumberOf(s: string): (r: NumberResult)
    ensures Trim(s) == [] ==> r == Finite(0)
  {
    ReadNumber(Trim(s))
  }

  /** `Number` on text with no surrounding white space. */
  function ReadNumber(u: string): NumberResult
  {
    var ds := Unsigned(u);
    if u == [] then Finite(0)
    else if ds != [] && AllDigits(ds) then
      Finite(if u[0] == '-' then -(DigitsValue(ds) as int) else DigitsValue(ds))
    else NaN
  }

  /** Whenever `Number(s)` is a number it is the number `parseInt(s) || 0`
      reads. */
  lemma NumberAgreesWithParseInt(s: string)
    ensures NumberOf(s).Finite? ==> NumberOf(s).value == ParseIntOrZero(s)
  {
    ParseIntOfTrim(s);
    var ds := Unsigned(Trim(s));
    if ds != [] && AllDigits(ds) {
      LeadingDigitsOfDigits(ds);
    }
  }

  /** The result of `Number`: a finite value or NaN. */
  datatype NumberResult = Finite(value: int) | NaN

  /** A run of digits is read as its value. */
  lemma NumberOfDigits(ds: string)
    requires ds != [] && AllDigits(ds)
    ensures NumberOf(ds) == Finite(DigitsValue(ds))
  {
    assert IsDigit(ds[0]) && IsDigit(ds[|ds| - 1]);
    TrimmedIsFixed(ds);
    assert ReadNumber(ds) == Finite(DigitsValue(ds));
  }

  /** A run of digits after a minus sign is read as the negated value. */
  lemma NumberOfNegatedDigits(ds: string, m: string)
    requires ds != [] && AllDigits(ds)
    requires m == "-" + ds
    ensures NumberOf(m) == Finite(-(DigitsValue(ds) as int))
  {
    assert m[1..] == ds;
    assert Unsigned(m) == ds;
    assert ReadNumber(m) == Finite(-(DigitsValue(ds) as int));
    assert m[0] == '-' && IsDigit(m[|m| - 1]);
    TrimmedIsFixed(m);
  }

  /** `Number` reads back the decimal text of a natural number. */
  lemma NumberOfNatText(n: nat)
    ensures NumberOf(NatText(n)) == Finite(n)
  {
    var t := NatText(n);
    assert AllDigits(t);
    DigitsOfNatText(n);
    NumberOfDigits(t);
  }

  /** Text that, once trimmed, starts with neither a digit nor a sign is NaN. */
  lemma NumberOfJunk(s: string)
    requires Trim(s) != [] && !IsDigit(Trim(s)[0]) && Trim(s)[0] != '-' && Trim(s)[0] != '+'
    ensures NumberOf(s) == NaN
  {
  }

  /** Text with no digit after its optional sign parses to 0. */
  lemma ParseWithoutDigits(s: string)
    requires s == [] || (!IsDigit(s[0]) && s[0] != '-' && s[0] != '+' && !IsSpace(s[0]))
    ensures ParseIntOrZero(s) == 0
  {
  }
}
