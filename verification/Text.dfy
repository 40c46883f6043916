/** Decimal numbers as text, and the two ways in which the sources cut a text at a
    delimiter. */
module Text {
  import opened Machine

  predicate IsDigit(c: char) { '0' <= c <= '9' }

  predicate IsSpace(c: char) { c == ' ' || '\t' <= c <= '\r' }

  function DigitValue(c: char): (d: nat)
    requires IsDigit(c)
  {
    c as int - '0' as int
  }

  function Digit(d: nat): (c: char)
    requires d < 10
    ensures IsDigit(c) && DigitValue(c) == d
  {
    ('0' as int + d) as char
  }

  predicate AllDigits(s: string) { forall c :: c in s ==> IsDigit(c) }

  /** The number that a string of digits denotes. */
  function Number(s: string): (n: nat)
    requires AllDigits(s)
  {
    if s == [] then 0 else 10 * Number(s[..|s| - 1]) + DigitValue(s[|s| - 1])
  }

  /** A number in decimal, without leading zeros. */
  function Decimal(n: nat): (s: string)
    ensures s != [] && AllDigits(s)
  {
    if n < 10 then [Digit(n)] else Decimal(n / 10) + [Digit(n % 10)]
  }

  lemma {:induction false} NumberOfDecimal(n: nat)
    ensures Number(Decimal(n)) == n
  {
    if n >= 10 {
      NumberOfDecimal(n / 10);
      assert Decimal(n)[..|Decimal(n)| - 1] == Decimal(n / 10);
    } else {
      assert [Digit(n)][..0] == [];
    }
  }

  function SkipSpaces(s: string): (t: string) {
    if s != [] && IsSpace(s[0]) then SkipSpaces(s[1..]) else s
  }

  /** The longest prefix of digits. */
  function LeadingDigits(s: string): (t: string)
    ensures AllDigits(t)
  {
    if s != [] && IsDigit(s[0]) then [s[0]] + LeadingDigits(s[1..]) else []
  }

  /** What the C number readers find at the start of a text: blanks, a sign, digits.
      Anything after the digits is ignored. */
  function ReadInteger(s: string): (v: Option<int>) {
    var t := SkipSpaces(s);
    var signed := t != [] && (t[0] == '-' || t[0] == '+');
    var digits := LeadingDigits(if signed then t[1..] else t);
    if digits == [] then None
    else if signed && t[0] == '-' then Some(0 - Number(digits))
    else Some(Number(digits))
  }

  /** Reading undoes printing. */
  lemma ReadDecimal(n: nat)
    ensures ReadInteger(Decimal(n)) == Some(n)
  {
    ReadInContext([], [], n, []);
    assert [] + [] + Decimal(n) + [] == Decimal(n);
  }

  predicate IsBlank(c: char) { c == ' ' || 9 <= c as int <= 13 }

  /** Reading takes the number behind blanks and a sign, and stops in front of the rest. */
  lemma {:induction false} ReadInContext(blanks: string, sign: string, n: nat, rest: string)
    requires forall c :: c in blanks ==> IsBlank(c)
    requires sign in ["", "+", "-"] && (rest == [] || !IsDigit(rest[0]))
    ensures ReadInteger(blanks + sign + Decimal(n) + rest) == Some(if sign == "-" then 0 - n else n)
  {
    hide Decimal, LeadingDigits, Number;
    if blanks != [] {
      assert forall c :: c in blanks[1..] ==> c in blanks;
      ReadInContext(blanks[1..], sign, n, rest);
      var s := blanks + sign + Decimal(n) + rest;
      assert blanks[0] in blanks && s[1..] == blanks[1..] + sign + Decimal(n) + rest;
    } else {
      assert blanks + sign + Decimal(n) + rest == sign + (Decimal(n) + rest);
      ReadSigned(sign, n, rest);
    }
  }

  lemma ReadSigned(sign: string, n: nat, rest: string)
    requires sign in ["", "+", "-"] && (rest == [] || !IsDigit(rest[0]))
    ensures ReadInteger(sign + (Decimal(n) + rest)) == Some(if sign == "-" then 0 - n else n)
  {
    hide Decimal, LeadingDigits, Number, SkipSpaces;
    var t := Decimal(n) + rest;
    var s := sign + t;
    assert t[0] == Decimal(n)[0] && Decimal(n)[0] in Decimal(n);
    LeadingDigitsBefore(Decimal(n), rest);
    NumberOfDecimal(n);
    assert if sign == "" then s == t else s[0] == sign[0] && s[1..] == t;
    NothingToSkip(s);
  }

  lemma NothingToSkip(s: string)
    requires s != [] && !IsSpace(s[0])
    ensures SkipSpaces(s) == s
  {
  }

  lemma {:induction false} LeadingDigitsBefore(digits: string, rest: string)
    requires AllDigits(digits) && (rest == [] || !IsDigit(rest[0]))
    ensures LeadingDigits(digits + rest) == digits
  {
    if digits != [] {
      assert forall c :: c in digits[1..] ==> c in digits;
      LeadingDigitsBefore(digits[1..], rest);
      assert (digits + rest)[1..] == digits[1..] + rest && digits[0] in digits;
    } else {
      assert digits + rest == rest;
    }
  }

  predicate NoDigits(s: string) { forall c :: c in s ==> !IsDigit(c) }

  lemma NoDigitsNoNumber(s: string)
    requires NoDigits(s)
    ensures ReadInteger(s).None?
  {
    SkippedPart(s);
  }

  lemma {:induction false} SkippedPart(s: string)
    ensures forall c :: c in SkipSpaces(s) ==> c in s
  {
    if s != [] && IsSpace(s[0]) {
      SkippedPart(s[1..]);
    }
  }

  // ----- Cutting at a delimiter -----

  /** Where the delimiter first stands, or the length. */
  function Find(s: string, d: char): (i: nat)
    ensures i <= |s| && d !in s[..i] && (i < |s| ==> s[i] == d)
  {
    if s == [] || s[0] == d then 0 else
      assert forall i: nat :: i <= |s| - 1 ==> s[..i + 1] == [s[0]] + s[1..][..i];
      1 + Find(s[1..], d)
  }

  lemma FindAfter(a: string, d: char, b: string)
    requires d !in a
    ensures Find(a + [d] + b, d) == |a| && Find(a, d) == |a|
  {
    var s := a + [d] + b;
    var i := Find(s, d);
    assert s[|a|] == d;
  }

  /** What is left of a stream after one line. */
  function Rest(s: string, i: nat): (r: string)
    requires i <= |s|
    ensures s != [] ==> |r| < |s|
  {
    if i < |s| then s[i + 1..] else []
  }

  /** Reading a stream line by line: tokens may be empty, except after a last delimiter. */
  function Lines(s: string, d: char): (tokens: seq<string>)
    decreases |s|
  {
    if s == [] then [] else
      var i := Find(s, d);
      [s[..i]] + Lines(Rest(s, i), d)
  }

  /** Cutting with `strtok`: empty tokens vanish. */
  function Tokens(s: string, d: char): (tokens: seq<string>)
    decreases |s|
  {
    if s == [] then [] else
      var i := Find(s, d);
      (if i > 0 then [s[..i]] else []) + Tokens(Rest(s, i), d)
  }

  function Join(parts: seq<string>, d: char): (s: string)
    requires parts != []
  {
    if |parts| == 1 then parts[0] else parts[0] + [d] + Join(parts[1..], d)
  }

  /** The parts that are not empty, in their order. */
  function NonEmpty(parts: seq<string>): (kept: seq<string>)
    ensures multiset(kept) == multiset(parts)[[] := 0]
  {
    if parts == [] then [] else
      assert parts == [parts[0]] + parts[1..];
      (if parts[0] == [] then [] else [parts[0]]) + NonEmpty(parts[1..])
  }

  lemma {:induction false} NonEmptyKeepsAll(parts: seq<string>)
    requires forall p :: p in parts ==> p != []
    ensures NonEmpty(parts) == parts
  {
    if parts != [] {
      assert forall p :: p in parts[1..] ==> p in parts;
      NonEmptyKeepsAll(parts[1..]);
      assert parts[0] in parts && parts == [parts[0]] + parts[1..];
    }
  }

  /** What the two cuts make of any text, given by the parts between its delimiters: tokens
      lose every empty part, lines only an empty last one. */
  lemma {:induction false} TokensOfJoin(parts: seq<string>, d: char)
    requires parts != [] && forall p :: p in parts ==> d !in p
    ensures Tokens(Join(parts, d), d) == NonEmpty(parts)
  {
    hide Tokens, Join;
    Joined(parts, d);
    var first := parts[0];
    assert first in parts;
    if |parts| == 1 {
      CutLast(first, d);
      assert NonEmpty(parts[1..]) == [];
    } else {
      var tail := parts[1..];
      assert forall p :: p in tail ==> p in parts;
      TokensOfJoin(tail, d);
      CutFirst(first, d, Join(tail, d));
    }
  }

  lemma {:induction false} LinesOfJoin(parts: seq<string>, d: char)
    requires parts != [] && forall p :: p in parts ==> d !in p
    ensures var last := |parts| - 1;
            Lines(Join(parts, d), d) == if parts[last] == [] then parts[..last] else parts
  {
    hide Lines, Join;
    Joined(parts, d);
    var first := parts[0];
    assert first in parts;
    if |parts| == 1 {
      CutLast(first, d);
      assert parts == [first];
    } else {
      var tail := parts[1..];
      assert forall p :: p in tail ==> p in parts;
      LinesOfJoin(tail, d);
      CutFirst(first, d, Join(tail, d));
      Cons(parts);
    }
  }

  lemma Joined(parts: seq<string>, d: char)
    requires parts != []
    ensures Join(parts, d) == if |parts| == 1 then parts[0] else parts[0] + [d] + Join(parts[1..], d)
  {
  }

  lemma Cons(parts: seq<string>)
    requires |parts| > 1
    ensures parts == [parts[0]] + parts[1..]
    ensures parts[..|parts| - 1] == [parts[0]] + parts[1..][..|parts| - 2]
  {
  }

  lemma CutFirst(a: string, d: char, b: string)
    requires d !in a
    ensures Lines(a + [d] + b, d) == [a] + Lines(b, d)
    ensures Tokens(a + [d] + b, d) == (if a == [] then [] else [a]) + Tokens(b, d)
  {
    hide Find;
    FindAfter(a, d, b);
    var s := a + [d] + b;
    assert s[..|a|] == a && s[|a| + 1..] == b;
  }

  lemma CutLast(a: string, d: char)
    requires d !in a
    ensures Lines(a, d) == Tokens(a, d) == if a == [] then [] else [a]
  {
    hide Find;
    FindAfter(a, d, []);
    assert a[..|a|] == a && Lines([], d) == Tokens([], d) == [];
  }

  /** Nonempty parts without the delimiter come back from either cut. */
  lemma CutsUndoJoin(parts: seq<string>, d: char)
    requires parts != [] && forall p :: p in parts ==> p != [] && d !in p
    ensures Lines(Join(parts, d), d) == parts
    ensures Tokens(Join(parts, d), d) == parts
  {
    LinesOfJoin(parts, d);
    TokensOfJoin(parts, d);
    NonEmptyKeepsAll(parts);
    assert parts[|parts| - 1] in parts;
  }

  lemma {:induction false} JoinAvoids(parts: seq<string>, d: char, c: char)
    requires parts != [] && c != d && forall p :: p in parts ==> p != [] && c !in p
    ensures c !in Join(parts, d) && Join(parts, d) != []
  {
    assert parts[0] in parts;
    if |parts| > 1 {
      assert forall p :: p in parts[1..] ==> p in parts;
      JoinAvoids(parts[1..], d, c);
    }
  }
}
