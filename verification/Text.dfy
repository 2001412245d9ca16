/** The C++ string and number conversions the message formats are built with. A delimiter
    string is only ever used as the set of its characters. */
module Text {

  /** std::string::npos, for the searches below. */
  const NPOS: int := -1

  predicate Free(s: string, delims: set<char>) {
    forall i :: 0 <= i < |s| ==> s[i] !in delims
  }

  /** string::find_first_of(delims, from) */
  function FindFirstOf(s: string, delims: set<char>, from: int): (k: int)
    requires NPOS <= from <= |s|
    ensures k == NPOS || (0 <= from <= k < |s| && s[k] in delims)
    ensures from != NPOS ==> forall i :: from <= i < (if k == NPOS then |s| else k) ==> s[i] !in delims
    decreases if from == NPOS then 0 else |s| - from
  {
    if from == NPOS || from == |s| then NPOS
    else if s[from] in delims then from
    else FindFirstOf(s, delims, from + 1)
  }

  /** string::find_first_not_of(delims, from) */
  function FindFirstNotOf(s: string, delims: set<char>, from: int): (k: int)
    requires NPOS <= from <= |s|
    ensures k == NPOS || (0 <= from <= k < |s| && s[k] !in delims)
    ensures from != NPOS ==> forall i :: from <= i < (if k == NPOS then |s| else k) ==> s[i] in delims
    decreases if from == NPOS then 0 else |s| - from
  {
    if from == NPOS || from == |s| then NPOS
    else if s[from] !in delims then from
    else FindFirstNotOf(s, delims, from + 1)
  }

  /** string::find_last_of(c) for one character */
  function FindLast(s: string, c: char): (k: int)
    ensures NPOS <= k < |s|
    ensures k != NPOS ==> s[k] == c
    ensures forall i :: k < i < |s| ==> s[i] != c
  {
    if s == [] then NPOS
    else if s[|s| - 1] == c then |s| - 1
    else FindLast(s[..|s| - 1], c)
  }

  /** s.substr(s.find_first_of(";") + 1): without a separator the whole string comes back,
      since npos + 1 wraps to 0. */
  function DropField(s: string): string {
    s[FindFirstOf(s, {';'}, 0) + 1..]
  }

  function DropFields(s: string, n: nat): string {
    if n == 0 then s else DropFields(DropField(s), n - 1)
  }

  /** s.substr(0, s.find_first_of(";")) */
  function FirstField(s: string): string {
    var k := FindFirstOf(s, {';'}, 0);
    if k == NPOS then s else s[..k]
  }

  /** Fields closed by ';' one after the other. */
  function Closed(fields: seq<string>): string {
    if fields == [] then "" else fields[0] + ";" + Closed(fields[1..])
  }

  lemma FirstSeparator(field: string, rest: string)
    requires Free(field, {';'})
    ensures FindFirstOf(field + ";" + rest, {';'}, 0) == |field|
  {
    var s := field + ";" + rest;
    assert s[|field|] == ';';
    assert forall i :: 0 <= i < |field| ==> s[i] == field[i];
  }

  lemma DropOne(field: string, rest: string)
    requires Free(field, {';'})
    ensures DropField(field + ";" + rest) == rest && FirstField(field + ";" + rest) == field
  {
    FirstSeparator(field, rest);
  }

  /** Without a separator there is one field, and dropping it drops nothing. */
  lemma {:induction false} OneField(s: string)
    requires Free(s, {';'})
    ensures DropField(s) == s && FirstField(s) == s
  {
    assert FindFirstOf(s, {';'}, 0) == NPOS;
  }

  /** Stripping as many fields as a header has gives the body back, whatever the body holds. */
  lemma {:induction false} DropHeader(fields: seq<string>, body: string)
    requires forall f :: f in fields ==> Free(f, {';'})
    ensures DropFields(Closed(fields) + body, |fields|) == body
  {
    if fields != [] {
      DropOne(fields[0], Closed(fields[1..]) + body);
      assert Closed(fields) + body == fields[0] + ";" + (Closed(fields[1..]) + body);
      DropHeader(fields[1..], body);
    } else {
      assert Closed(fields) + body == body;
    }
  }

  lemma {:induction false} ClosedConcat(fields: seq<string>, more: seq<string>)
    ensures Closed(fields + more) == Closed(fields) + Closed(more)
  {
    if fields == [] {
      assert fields + more == more;
    } else {
      assert (fields + more)[1..] == fields[1..] + more;
      ClosedConcat(fields[1..], more);
      assert fields[0] + ";" + (Closed(fields[1..]) + Closed(more)) ==
             (fields[0] + ";" + Closed(fields[1..])) + Closed(more);
    }
  }

  lemma {:induction false} ClosedFree(fields: seq<string>, chars: set<char>)
    requires ';' !in chars && forall i :: 0 <= i < |fields| ==> Free(fields[i], chars)
    ensures Free(Closed(fields), chars)
  {
    if fields != [] {
      ClosedFree(fields[1..], chars);
    }
  }

  lemma {:induction false} ClosedAppend(fields: seq<string>, a: string)
    ensures Closed(fields + [a]) == Closed(fields) + a + ";"
  {
    if fields == [] {
      assert ([] + [a])[1..] == [];
      assert Closed([a]) == a + ";" + "";
    } else {
      assert (fields + [a])[1..] == fields[1..] + [a];
      ClosedAppend(fields[1..], a);
    }
  }

  lemma {:induction false} LastUnique(s: string, c: char, k: nat)
    requires k < |s| && s[k] == c && forall i :: k < i < |s| ==> s[i] != c
    ensures FindLast(s, c) == k
  {
  }

  lemma LastSeparator(head: string, tail: string, c: char)
    requires Free(tail, {c})
    ensures FindLast(head + [c] + tail, c) == |head|
  {
    LastUnique(head + [c] + tail, c, |head|);
  }

  // ---------- decimal numbers ----------

  function Digit(d: nat): (c: char)
    requires d < 10
    ensures IsDigit(c) && DigitValue(c) == d
  {
    '0' + (d as char)
  }

  predicate IsDigit(c: char) {
    '0' <= c <= '9'
  }

  function DigitValue(c: char): nat
    requires IsDigit(c)
  {
    (c - '0') as nat
  }

  /** std::to_string of an unsigned number */
  function NatText(n: nat): (s: string)
    ensures s != [] && forall i :: 0 <= i < |s| ==> IsDigit(s[i])
  {
    if n < 10 then [Digit(n)] else NatText(n / 10) + [Digit(n % 10)]
  }

  /** std::to_string */
  function IntText(n: int): (s: string)
    ensures s != [] && (IsDigit(s[0]) || s[0] == '-')
    ensures forall i :: 1 <= i < |s| ==> IsDigit(s[i])
  {
    if n < 0 then "-" + NatText(-n) else NatText(n)
  }

  /** The value of the leading digits, atoi's loop. */
  function DigitsValue(s: string, acc: nat): nat {
    if s == [] || !IsDigit(s[0]) then acc
    else DigitsValue(s[1..], acc * 10 + DigitValue(s[0]))
  }

  predicate IsSpace(c: char) {
    c == ' ' || '\t' <= c <= '\r'
  }

  /** atoi, without its overflow: blanks, a sign, then as many digits as follow. */
  function Atoi(s: string): int {
    if s == [] then 0
    else if IsSpace(s[0]) then Atoi(s[1..])
    else if s[0] == '-' then -(DigitsValue(s[1..], 0) as int)
    else if s[0] == '+' then DigitsValue(s[1..], 0)
    else DigitsValue(s, 0)
  }

  /** stoi finds a number to read; it throws where this fails. */
  predicate HasNumber(s: string) {
    if s == [] then false
    else if IsSpace(s[0]) then HasNumber(s[1..])
    else if s[0] == '-' || s[0] == '+' then |s| > 1 && IsDigit(s[1])
    else IsDigit(s[0])
  }

  lemma {:induction false} DigitsValueSnoc(s: string, d: char, acc: nat)
    requires IsDigit(d) && forall i :: 0 <= i < |s| ==> IsDigit(s[i])
    ensures DigitsValue(s + [d], acc) == DigitsValue(s, acc) * 10 + DigitValue(d)
  {
    if s == [] {
      assert s + [d] == [d];
      assert DigitsValue([], acc * 10 + DigitValue(d)) == acc * 10 + DigitValue(d);
    } else {
      assert (s + [d])[1..] == s[1..] + [d];
      DigitsValueSnoc(s[1..], d, acc * 10 + DigitValue(s[0]));
    }
  }

  lemma {:induction false} NatTextValue(n: nat)
    ensures DigitsValue(NatText(n), 0) == n
  {
    if n >= 10 {
      NatTextValue(n / 10);
      DigitsValueSnoc(NatText(n / 10), Digit(n % 10), 0);
    } else {
      assert DigitsValue(NatText(n)[1..], n) == n;
    }
  }

  /** Numbers survive being printed and read back. */
  lemma AtoiText(n: int)
    ensures Atoi(IntText(n)) == n && HasNumber(IntText(n))
  {
    var m := if n < 0 then -n else n;
    NatTextValue(m);
    assert n < 0 ==> IntText(n)[1..] == NatText(m);
  }

  lemma TextFree(n: int)
    ensures Free(IntText(n), {';'}) && Free(IntText(n), {'$'})
  {
  }

  // ---------- what atoi and stoi make of any string ----------

  /** Space, tab, and the four line breaks isspace knows. */
  predicate Blank(s: string) {
    forall i :: 0 <= i < |s| ==> s[i] == ' ' || 9 <= s[i] as int <= 13
  }

  /** Behind k blanks there is a digit, or a sign and a digit. */
  predicate NumberAt(s: string, k: nat) {
    && k < |s| && Blank(s[..k])
    && (IsDigit(s[k]) || ((s[k] == '-' || s[k] == '+') && k + 1 < |s| && IsDigit(s[k + 1])))
  }

  /** stoi does not throw exactly if such a place exists; where it would, atoi gives 0. */
  lemma {:induction false} HasNumberIff(s: string)
    ensures HasNumber(s) <==> exists k: nat :: NumberAt(s, k)
    ensures !HasNumber(s) ==> Atoi(s) == 0
  {
    if s != "" && IsSpace(s[0]) {
      HasNumberIff(s[1..]);
      if k: nat :| NumberAt(s[1..], k) {
        assert s[..k + 1] == [s[0]] + s[1..][..k];
        assert NumberAt(s, k + 1);
      }
      if k: nat :| NumberAt(s, k) {
        assert s[1..][..k - 1] == s[1..k];
        assert NumberAt(s[1..], k - 1);
      }
    } else {
      if HasNumber(s) {
        assert NumberAt(s, 0);
      }
      assert forall k: nat :: NumberAt(s, k) && k > 0 ==> s[..k][0] == s[0];
    }
  }

  lemma {:induction false} DigitsStop(s: string, rest: string, acc: nat)
    requires (forall i :: 0 <= i < |s| ==> IsDigit(s[i])) && (rest != "" ==> !IsDigit(rest[0]))
    ensures DigitsValue(s + rest, acc) == DigitsValue(s, acc)
  {
    if s == "" {
      assert s + rest == rest;
    } else {
      assert (s + rest)[1..] == s[1..] + rest;
      DigitsStop(s[1..], rest, acc * 10 + DigitValue(s[0]));
    }
  }

  lemma {:induction false} AtoiDigits(n: nat, rest: string)
    requires rest != "" ==> !IsDigit(rest[0])
    ensures DigitsValue(NatText(n) + rest, 0) == n
  {
    NatTextValue(n);
    DigitsStop(NatText(n), rest, 0);
  }

  lemma {:induction false} AtoiSigned(sign: char, digits: string)
    requires sign == '-' || sign == '+'
    ensures Atoi([sign] + digits) == (if sign == '-' then -1 else 1) * DigitsValue(digits, 0)
  {
    assert ([sign] + digits)[1..] == digits;
  }

  lemma {:induction false} AtoiNegative(n: int, rest: string)
    requires n < 0 && (rest != "" ==> !IsDigit(rest[0]))
    ensures Atoi(IntText(n) + rest) == n && HasNumber(IntText(n) + rest)
  {
    AtoiDigits(-n, rest);
    AtoiSigned('-', NatText(-n) + rest);
    assert IntText(n) + rest == ['-'] + (NatText(-n) + rest);
  }

  /** A printed number is read whatever but a digit comes behind it, with or without a plus sign. */
  lemma {:induction false} AtoiBefore(n: int, rest: string)
    requires rest != "" ==> !IsDigit(rest[0])
    ensures Atoi(IntText(n) + rest) == n && HasNumber(IntText(n) + rest)
    ensures n >= 0 ==> Atoi("+" + (IntText(n) + rest)) == n
  {
    if n < 0 {
      AtoiNegative(n, rest);
    } else {
      AtoiDigits(n, rest);
      AtoiSigned('+', NatText(n) + rest);
      assert "+" + (IntText(n) + rest) == ['+'] + (NatText(n) + rest);
    }
  }

  /** And whatever blanks come in front. */
  lemma {:induction false} AtoiAmid(blanks: string, n: int, rest: string)
    requires Blank(blanks) && (rest != "" ==> !IsDigit(rest[0]))
    ensures Atoi(blanks + (IntText(n) + rest)) == n && HasNumber(blanks + (IntText(n) + rest))
  {
    if blanks == "" {
      AtoiBefore(n, rest);
      assert blanks + (IntText(n) + rest) == IntText(n) + rest;
    } else {
      AtoiAmid(blanks[1..], n, rest);
      assert (blanks + (IntText(n) + rest))[1..] == blanks[1..] + (IntText(n) + rest);
    }
  }
}
