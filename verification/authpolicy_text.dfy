/**
 The text functions that the GPO list parser is built on: trimming, splitting at separators and joining,
 and numbers as printf writes and sscanf reads them.
 */
module AuthpolicyText {
  import opened Common

  predicate IsSpace(c: char) { c == ' ' || '\t' <= c <= '\r' }

  // --- trimming ---

  function TrimLeft(s: string): string {
    if s == "" || !IsSpace(s[0]) then s else TrimLeft(s[1..])
  }

  function TrimRight(s: string): string {
    if s == "" || !IsSpace(s[|s|-1]) then s else TrimRight(s[..|s|-1])
  }

  function Trim(s: string): string { TrimRight(TrimLeft(s)) }

  // Non-empty, with no space at either end.
  predicate Trimmed(s: string) { s != "" && !IsSpace(s[0]) && !IsSpace(s[|s|-1]) }

  predicate AllSpaces(s: string) { forall i :: 0 <= i < |s| ==> IsSpace(s[i]) }

  /** Trimming removes the spaces in front of trimmed text and nothing else. */
  lemma {:induction false} TrimSpaces(spaces: string, s: string)
    requires AllSpaces(spaces) && Trimmed(s)
    ensures Trim(spaces + s) == s && TrimLeft(spaces + s) == s
    decreases |spaces|
  {
    if spaces == "" { assert spaces + s == s; }
    else {
      assert (spaces + s)[1..] == spaces[1..] + s;
      TrimSpaces(spaces[1..], s);
    }
  }

  lemma {:induction false} TrimTrimmed(s: string)
    requires Trimmed(s)
    ensures Trim(s) == s
  {
  }

  // --- splitting ---

  // The pieces once one more character is read.
  function Read(ps: seq<string>, c: char, seps: set<char>): (qs: seq<string>)
    requires |ps| > 0
    ensures |qs| > 0
  {
    if c in seps then ps + [""] else ps[..|ps|-1] + [ps[|ps|-1] + [c]]
  }

  // The pieces between separators; there is always at least one.
  function Split(s: string, seps: set<char>): (ps: seq<string>)
    ensures |ps| > 0
  {
    if s == "" then [""] else Read(Split(s[..|s|-1], seps), s[|s|-1], seps)
  }

  lemma {:induction false} ReadAt(p: seq<string>, q: seq<string>, c: char, seps: set<char>)
    requires |q| > 0
    ensures Read(p + q, c, seps) == p + Read(q, c, seps)
  {
    assert (p + q)[..|p+q|-1] == p + q[..|q|-1];
  }

  lemma {:induction false} SplitAt(a: string, sep: char, b: string, seps: set<char>)
    requires sep in seps
    ensures Split(a + [sep] + b, seps) == Split(a, seps) + Split(b, seps)
    decreases |b|
  {
    var s := a + [sep] + b;
    if b == "" {
      assert s[..|s|-1] == a && s[|s|-1] == sep;
    } else {
      var front := b[..|b|-1];
      AppendFront(a + [sep], b);
      SplitAt(a, sep, front, seps);
      ReadAt(Split(a, seps), Split(front, seps), b[|b|-1], seps);
    }
  }

  lemma {:induction false} SplitNone(s: string, seps: set<char>)
    requires forall i :: 0 <= i < |s| ==> s[i] !in seps
    ensures Split(s, seps) == [s]
    decreases |s|
  {
    if s != "" {
      SplitNone(s[..|s|-1], seps);
      assert s == s[..|s|-1] + [s[|s|-1]];
    }
  }

  function Join(ps: seq<string>, sep: string): string {
    if ps == [] then "" else if |ps| == 1 then ps[0] else Join(ps[..|ps|-1], sep) + sep + ps[|ps|-1]
  }

  /** Joining undoes splitting where one separator was used throughout. */
  lemma {:induction false} JoinSplit(s: string, sep: char, seps: set<char>)
    requires sep in seps && forall i :: 0 <= i < |s| ==> s[i] in seps ==> s[i] == sep
    ensures Join(Split(s, seps), [sep]) == s
    decreases |s|
  {
    if s != "" {
      var front, c := s[..|s|-1], s[|s|-1];
      JoinSplit(front, sep, seps);
      var ps := Split(front, seps);
      assert s == front + [c];
      if c in seps {
        assert (ps + [""])[..|ps|] == ps;
        assert front + [sep] + "" == s;
      } else {
        var qs := ps[..|ps|-1] + [ps[|ps|-1] + [c]];
        assert qs[..|qs|-1] == ps[..|ps|-1];
        if |ps| > 1 {
          assert Join(ps[..|ps|-1], [sep]) + [sep] + (ps[|ps|-1] + [c]) == Join(ps, [sep]) + [c];
        }
      }
    }
  }

  lemma {:induction false} JoinAt(a: seq<string>, b: seq<string>, sep: string)
    requires |a| > 0 && |b| > 0
    ensures Join(a + b, sep) == Join(a, sep) + sep + Join(b, sep)
    decreases |b|
  {
    assert (a + b)[..|a+b|-1] == a + b[..|b|-1];
    if |b| == 1 { assert a + b[..0] == a; }
    else { JoinAt(a, b[..|b|-1], sep); }
  }

  // No character of the parts is in the set.
  ghost predicate Free(ps: seq<string>, seps: set<char>) {
    forall i, j :: 0 <= i < |ps| && 0 <= j < |ps[i]| ==> ps[i][j] !in seps
  }

  lemma {:induction false} SplitFree(s: string, seps: set<char>)
    ensures Free(Split(s, seps), seps)
    decreases |s|
  {
    if s != "" { SplitFree(s[..|s|-1], seps); }
  }

  lemma {:induction false} TrimFree(s: string, seps: set<char>)
    requires forall j :: 0 <= j < |s| ==> s[j] !in seps
    ensures forall j :: 0 <= j < |Trim(s)| ==> Trim(s)[j] !in seps
  {
    TrimLeftFree(s, seps);
    TrimRightFree(TrimLeft(s), seps);
  }

  lemma {:induction false} TrimLeftFree(s: string, seps: set<char>)
    requires forall j :: 0 <= j < |s| ==> s[j] !in seps
    ensures forall j :: 0 <= j < |TrimLeft(s)| ==> TrimLeft(s)[j] !in seps
    decreases |s|
  {
    if s != "" { TrimLeftFree(s[1..], seps); }
  }

  lemma {:induction false} TrimRightFree(s: string, seps: set<char>)
    requires forall j :: 0 <= j < |s| ==> s[j] !in seps
    ensures forall j :: 0 <= j < |TrimRight(s)| ==> TrimRight(s)[j] !in seps
    decreases |s|
  {
    if s != "" { TrimRightFree(s[..|s|-1], seps); }
  }

  lemma {:induction false} JoinFree(ps: seq<string>, sep: string, c: char)
    requires Free(ps, {c}) && c !in sep
    ensures c !in Join(ps, sep)
    decreases |ps|
  {
    if |ps| > 1 {
      JoinFree(ps[..|ps|-1], sep, c);
      assert c !in ps[|ps|-1];
    } else if |ps| == 1 {
      assert c !in ps[0];
    }
  }

  /** Splitting undoes joining where no part holds a separator. */
  lemma {:induction false} SplitJoin(ps: seq<string>, sep: char, seps: set<char>)
    requires |ps| > 0 && sep in seps
    requires forall i, j :: 0 <= i < |ps| && 0 <= j < |ps[i]| ==> ps[i][j] !in seps
    ensures Split(Join(ps, [sep]), seps) == ps
    decreases |ps|
  {
    var front, last := ps[..|ps|-1], ps[|ps|-1];
    SplitNone(last, seps);
    assert ps == front + [last];
    if front != [] {
      SplitJoin(front, sep, seps);
      SplitAt(Join(front, [sep]), sep, last, seps);
    }
  }

  // --- lines ---

  // Each piece trimmed, the empty ones left out.
  function NonEmpty(ps: seq<string>): seq<string> {
    if ps == [] then []
    else
      var p := Trim(ps[|ps|-1]);
      NonEmpty(ps[..|ps|-1]) + (if p == "" then [] else [p])
  }

  function Lines(s: string): seq<string> { NonEmpty(Split(s, {'\n'})) }

  lemma {:induction false} NonEmptyAt(a: seq<string>, b: seq<string>)
    ensures NonEmpty(a + b) == NonEmpty(a) + NonEmpty(b)
    decreases |b|
  {
    if b == [] { assert a + b == a; }
    else {
      assert (a + b)[..|a+b|-1] == a + b[..|b|-1];
      NonEmptyAt(a, b[..|b|-1]);
    }
  }

  /** Text cut at a newline has the lines of both parts. */
  lemma {:induction false} LinesAt(a: string, b: string)
    ensures Lines(a + "\n" + b) == Lines(a) + Lines(b)
  {
    SplitAt(a, '\n', b, {'\n'});
    NonEmptyAt(Split(a, {'\n'}), Split(b, {'\n'}));
  }

  predicate IsLine(s: string) { Trimmed(s) && '\n' !in s }

  lemma {:induction false} LineItself(s: string)
    requires IsLine(s)
    ensures Lines(s) == [s]
  {
    SplitNone(s, {'\n'});
    TrimTrimmed(s);
    NonEmptyOne(s);
  }

  lemma {:induction false} NonEmptyOne(p: string)
    ensures NonEmpty([p]) == if Trim(p) == "" then [] else [Trim(p)]
  {
    assert [p][..0] == [];
  }

  // Lines written out, each with its newline.
  function Written(ls: seq<string>): string {
    if ls == [] then "" else Written(ls[..|ls|-1]) + ls[|ls|-1] + "\n"
  }

  /** Reading lines undoes writing them. */
  lemma {:induction false} LinesOfWritten(ls: seq<string>)
    requires forall i :: 0 <= i < |ls| ==> IsLine(ls[i])
    ensures Lines(Written(ls)) == ls
    decreases |ls|
  {
    if ls == [] {
      assert Split("", {'\n'}) == [""] && [""][..0] == [];
    } else {
      var front, l := ls[..|ls|-1], ls[|ls|-1];
      LinesOfWritten(front);
      LinesAt(Written(front) + l, "");
      assert Written(ls) == Written(front) + l + "\n" + "";
      assert Split("", {'\n'}) == [""] && [""][..0] == [];
      LinesOfNext(front, l);
    }
  }

  lemma {:induction false} LinesOfNext(front: seq<string>, l: string)
    requires Lines(Written(front)) == front && IsLine(l)
    ensures Lines(Written(front) + l) == front + [l]
  {
    LineItself(l);
    if front == [] {
      assert Written(front) + l == l;
    } else {
      var w := Written(front[..|front|-1]) + front[|front|-1];
      LinesAt(w, l);
      LinesAt(w, "");
      assert Split("", {'\n'}) == [""] && [""][..0] == [];
      assert Written(front) + l == w + "\n" + l && Written(front) == w + "\n" + "";
    }
  }

  // --- numbers ---

  const ULONG_LIMIT: nat := 0x1_0000_0000_0000_0000
  const UINT_LIMIT: nat := 0x1_0000_0000

  // The value of a digit in bases up to sixteen; sixteen if it is none.
  function DigitValue(c: char): nat {
    if '0' <= c <= '9' then c as nat - '0' as nat
    else if 'a' <= c <= 'f' then c as nat - 'a' as nat + 10
    else if 'A' <= c <= 'F' then c as nat - 'A' as nat + 10
    else 16
  }

  function DigitChar(d: nat): char
    requires d < 16
  {
    if d < 10 then '0' + d as char else 'a' + (d - 10) as char
  }

  // %u and %x
  function Digits(n: nat, base: nat): string
    requires base == 10 || base == 16
  {
    if n < base then [DigitChar(n)] else Digits(n / base, base) + [DigitChar(n % base)]
  }

  function ZeroPadded(s: string, width: nat): string
    decreases width - |s|
  {
    if |s| >= width then s else ZeroPadded("0" + s, width)
  }

  function Value(digits: string, base: nat): nat {
    if digits == "" then 0 else Value(digits[..|digits|-1], base) * base + DigitValue(digits[|digits|-1])
  }

  predicate AllDigits(s: string, base: nat) { forall i :: 0 <= i < |s| ==> DigitValue(s[i]) < base }

  function LeadingDigits(s: string, base: nat): (n: nat)
    ensures n <= |s| && (n < |s| ==> DigitValue(s[n]) >= base)
    ensures forall i :: 0 <= i < n ==> DigitValue(s[i]) < base
  {
    if s == "" || DigitValue(s[0]) >= base then 0 else 1 + LeadingDigits(s[1..], base)
  }

  predicate Signed(s: string) { s != "" && (s[0] == '+' || s[0] == '-') }

  // In base sixteen a number may begin with 0x.
  predicate Prefixed(s: string, base: nat) {
    base == 16 && |s| > 2 && s[0] == '0' && (s[1] == 'x' || s[1] == 'X') && DigitValue(s[2]) < 16
  }

  // strtoul, and the conversion of its result to an unsigned int.
  function Converted(v: nat, negative: bool): nat {
    (if v >= ULONG_LIMIT then ULONG_LIMIT - 1 else if negative then (ULONG_LIMIT - v) % ULONG_LIMIT else v) % UINT_LIMIT
  }

  // The number at the start of a field, and how many characters it takes.
  function ScanField(field: string, base: nat): (r: Option<(nat, nat)>)
    ensures r.Some? ==> r.value.1 <= |field|
  {
    var sign := if Signed(field) then 1 else 0;
    var start := sign + if Prefixed(field[sign..], base) then 2 else 0;
    var n := LeadingDigits(field[start..], base);
    if n == 0 then None
    else Some((Converted(Value(field[start..start+n], base), sign == 1 && field[0] == '-'), start + n))
  }

  function Field(s: string, width: nat): string { if |s| <= width then s else s[..width] }

  // One %u or %x of sscanf, reading at most `width` characters after any spaces: the number and the rest.
  function Scan(s: string, base: nat, width: nat): Option<(nat, string)> {
    var t := TrimLeft(s);
    var r := ScanField(Field(t, width), base);
    if r.None? then None else Some((r.value.0, t[r.value.1..]))
  }

  // --- reading a number that was printed ---

  lemma {:induction false} ValueOfDigits(n: nat, base: nat)
    requires base == 10 || base == 16
    ensures Value(Digits(n, base), base) == n && AllDigits(Digits(n, base), base) && Digits(n, base) != ""
    decreases n
  {
    if n >= base {
      var q, r := n / base, n % base;
      DivMod(n, base);
      ValueOfDigits(q, base);
      ValueSnoc(Digits(q, base), r, base);
      assert Digits(n, base) == Digits(q, base) + [DigitChar(r)];
    } else {
      ValueSnoc("", n, base);
      assert "" + [DigitChar(n)] == [DigitChar(n)];
    }
  }

  lemma {:induction false} DivMod(n: nat, base: nat)
    requires (base == 10 || base == 16) && n > 0
    ensures n / base * base + n % base == n && 0 <= n / base < n && 0 <= n % base < base
  {
    if base == 10 { assert n / 10 * 10 + n % 10 == n; } else { assert n / 16 * 16 + n % 16 == n; }
  }

  lemma {:induction false} ValueSnoc(s: string, d: nat, base: nat)
    requires d < base <= 16
    ensures Value(s + [DigitChar(d)], base) == Value(s, base) * base + d
    ensures AllDigits(s, base) ==> AllDigits(s + [DigitChar(d)], base)
  {
    assert (s + [DigitChar(d)])[..|s|] == s;
    assert DigitValue(DigitChar(d)) == d;
  }

  lemma {:induction false} ValueOfPadded(s: string, width: nat, base: nat)
    requires AllDigits(s, base) && base > 0
    ensures Value(ZeroPadded(s, width), base) == Value(s, base) && AllDigits(ZeroPadded(s, width), base)
    ensures |ZeroPadded(s, width)| == if |s| >= width then |s| else width
    decreases width - |s|
  {
    if |s| < width {
      ValueOfZero(s, base);
      ValueOfPadded("0" + s, width, base);
    }
  }

  lemma {:induction false} ValueOfZero(s: string, base: nat)
    ensures Value("0" + s, base) == Value(s, base)
    decreases |s|
  {
    if s == "" { assert "0" + s == "0" && "0"[..0] == ""; }
    else {
      ValueOfZero(s[..|s|-1], base);
      assert ("0" + s)[..|s|] == "0" + s[..|s|-1];
    }
  }

  function Power16(k: nat): nat { if k == 0 then 1 else 16 * Power16(k - 1) }

  lemma {:induction false} HexLength(n: nat, k: nat)
    requires k > 0 && n < Power16(k)
    ensures |Digits(n, 16)| <= k
    decreases k
  {
    if n >= 16 { HexLength(n / 16, k - 1); }
  }

  lemma {:induction false} UnsignedInHex(n: nat)
    requires n < UINT_LIMIT
    ensures |Digits(n, 16)| <= 8
  {
    assert Power16(4) == 65536;
    assert Power16(8) == 65536 * Power16(4);
    HexLength(n, 8);
  }

  lemma {:induction false} LeadingDigitsOf(digits: string, rest: string, base: nat)
    requires AllDigits(digits, base) && (rest == "" || DigitValue(rest[0]) >= base)
    ensures LeadingDigits(digits + rest, base) == |digits|
  {
    var s := digits + rest;
    assert forall i :: 0 <= i < |digits| ==> DigitValue(s[i]) < base;
    assert rest != "" ==> s[|digits|] == rest[0];
  }

  lemma {:induction false} ScanFieldDigits(digits: string, tail: string, base: nat)
    requires base == 10 || base == 16
    requires digits != "" && AllDigits(digits, base) && Value(digits, base) < UINT_LIMIT
    requires tail == "" || (DigitValue(tail[0]) >= 16 && tail[0] !in {'x', 'X'})
    ensures ScanField(digits + tail, base) == Some((Value(digits, base), |digits|))
  {
    var field := digits + tail;
    NotSpace(digits[0], base);
    NotPrefixed(digits, tail, base);
    LeadingDigitsOf(digits, tail, base);
    assert field[0..] == field && field[0..|digits|] == digits;
    assert !Signed(field);
    ConvertedSmall(Value(digits, base));
  }

  lemma {:induction false} ConvertedSmall(v: nat)
    requires v < UINT_LIMIT
    ensures Converted(v, false) == v
  {
  }

  /** Scanning reads back what was printed: digits that fit the width and the type, up to a character that
      is no digit. */
  lemma {:induction false} ScanDigits(digits: string, rest: string, base: nat, width: nat)
    requires base == 10 || base == 16
    requires digits != "" && |digits| <= width && AllDigits(digits, base) && Value(digits, base) < UINT_LIMIT
    requires rest != "" && DigitValue(rest[0]) >= 16 && rest[0] !in {'x', 'X'}
    ensures Scan(digits + rest, base, width) == Some((Value(digits, base), rest))
  {
    var s := digits + rest;
    NotSpace(digits[0], base);
    assert TrimLeft(s) == s;
    var tail := Field(rest, width - |digits|);
    assert Field(s, width) == digits + tail;
    ScanFieldDigits(digits, tail, base);
    assert s[|digits|..] == rest;
  }

  lemma {:induction false} NotSpace(c: char, base: nat)
    requires DigitValue(c) < base <= 16
    ensures !IsSpace(c) && c != '+' && c != '-'
  {
  }

  lemma {:induction false} NotPrefixed(digits: string, tail: string, base: nat)
    requires digits != "" && AllDigits(digits, base) && base <= 16
    requires tail == "" || tail[0] !in {'x', 'X'}
    ensures !Prefixed(digits + tail, base)
  {
    var s := digits + tail;
    assert |digits| > 1 ==> s[1] == digits[1];
    assert |digits| == 1 && tail != "" ==> s[1] == tail[0];
  }
}
