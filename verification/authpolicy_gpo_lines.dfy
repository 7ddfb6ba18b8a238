/**
 What the GPO list parser makes of any lines whatever, told without its state: which field a line gives, what a
 block holds, and exactly which texts are refused.
 */
module AuthpolicyGpoLines {
  import opened Common
  import opened AuthpolicyText
  import opened AuthpolicyGpo

  // --- the values of fields ---

  /** The option texts, and the flags that they stand for: none, user settings disabled, machine settings
      disabled, and both. */
  lemma {:induction false} FlagsIff(s: string, flags: nat)
    ensures ParseGpFlags(s) == Some(flags) <==>
              || (flags == 0 && s == "0 GPFLAGS_ALL_ENABLED")
              || (flags == 1 && s == "1 GPFLAGS_USER_SETTINGS_DISABLED")
              || (flags == 2 && s == "2 GPFLAGS_MACHINE_SETTINGS_DISABLED")
              || (flags == 3 && s == "3 GPFLAGS_ALL_DISABLED")
  {
    assert FlagsFrom(s, 4) == None;
    assert FlagsFrom(s, 3) == if s == GPFLAGS[3] then Some(3) else None;
    assert FlagsFrom(s, 2) == if s == GPFLAGS[2] then Some(2) else FlagsFrom(s, 3);
    assert FlagsFrom(s, 1) == if s == GPFLAGS[1] then Some(1) else FlagsFrom(s, 2);
    assert FlagsFrom(s, 0) == if s == GPFLAGS[0] then Some(0) else FlagsFrom(s, 1);
    assert GPFLAGS[0][0] == '0' && GPFLAGS[1][0] == '1' && GPFLAGS[2][0] == '2' && GPFLAGS[3][0] == '3';
  }

  /** The line that separates blocks. */
  lemma SeparatorText()
    ensures SEPARATOR == "---------------------"
  {
  }

  ghost predicate IsSign(sign: string) { |sign| <= 1 && (sign != "" ==> sign[0] == '+' || sign[0] == '-') }

  ghost predicate Negative(sign: string) { sign != "" && sign[0] == '-' }

  // A decimal number, possibly signed.
  ghost predicate Decimal(s: string, sign: string, d: string, after: string) {
    s == sign + d + after && IsSign(sign) && d != "" && AllDigits(d, 10) && (after == "" || DigitValue(after[0]) >= 10)
  }

  lemma {:induction false} LeftOf(s: string) returns (lead: string)
    ensures AllSpaces(lead) && s == lead + TrimLeft(s)
    decreases |s|
  {
    lead := "";
    if s != "" && IsSpace(s[0]) {
      var more := LeftOf(s[1..]);
      lead := [s[0]] + more;
      assert s == [s[0]] + s[1..];
    }
  }

  lemma {:induction false} TrimsLead(lead: string, s: string)
    requires AllSpaces(lead) && (s == "" || !IsSpace(s[0]))
    ensures TrimLeft(lead + s) == s
    decreases |lead|
  {
    if lead == "" { assert lead + s == s; }
    else {
      assert (lead + s)[1..] == lead[1..] + s;
      TrimsLead(lead[1..], s);
    }
  }

  lemma {:induction false} SignedIff(sign: string, d: string, after: string)
    requires IsSign(sign) && d != "" && AllDigits(d, 10)
    ensures Signed(sign + d + after) <==> sign != ""
    ensures (sign + d + after)[0] == '-' <==> Negative(sign)
    ensures (sign + d + after)[|sign|..] == d + after
    ensures !IsSpace((sign + d + after)[0])
  {
    var s := sign + d + after;
    NotSpace(d[0], 10);
    assert s[0] == if sign != "" then sign[0] else d[0];
    assert s[|sign|..] == d + after;
  }

  // Base ten has no prefix.
  lemma {:induction false} ScanTen(s: string, k: nat, d: string, negative: bool)
    requires k == (if Signed(s) then 1 else 0) && k <= |s| && LeadingDigits(s[k..], 10) == |d| > 0 && s[k..][..|d|] == d
    requires negative == (k == 1 && s[0] == '-')
    ensures ScanField(s, 10) == Some((Converted(Value(d, 10), negative), k + |d|))
  {
    assert !Prefixed(s[k..], 10);
    assert s[k..k+|d|] == d;
  }

  lemma {:induction false} DecimalScans(s: string, sign: string, d: string, after: string)
    requires Decimal(s, sign, d, after)
    ensures ScanField(s, 10) == Some((Converted(Value(d, 10), Negative(sign)), |sign| + |d|)) && s[|sign|+|d|..] == after
  {
    DecimalCut(s, sign, d, after);
    ScanTen(s, |sign|, d, Negative(sign));
  }

  lemma {:induction false} Cut(a: string, b: string, c: string)
    ensures (a + b + c)[|a|+|b|..] == c
  {
  }

  lemma {:induction false} DecimalCut(s: string, sign: string, d: string, after: string)
    requires Decimal(s, sign, d, after)
    ensures |sign| == (if Signed(s) then 1 else 0) && LeadingDigits(s[|sign|..], 10) == |d|
    ensures s[|sign|..][..|d|] == d && s[|sign|+|d|..] == after && (|sign| == 1 && s[0] == '-' <==> Negative(sign))
  {
    SignedIff(sign, d, after);
    LeadingDigitsOf(d, after, 10);
    assert (d + after)[..|d|] == d;
    Cut(sign, d, after);
  }

  lemma {:induction false} DigitsCut(s: string, n: nat)
    requires n == LeadingDigits(s, 10)
    ensures s == s[..n] + s[n..] && AllDigits(s[..n], 10) && (n < |s| ==> DigitValue(s[n..][0]) >= 10)
  {
  }

  lemma {:induction false} NeedsDigits(s: string, k: nat)
    requires k == (if Signed(s) then 1 else 0) && ScanField(s, 10).Some?
    ensures k <= |s| && LeadingDigits(s[k..], 10) > 0
  {
  }

  lemma {:induction false} ScansDecimal(s: string) returns (sign: string, d: string, after: string)
    requires ScanField(s, 10).Some?
    ensures Decimal(s, sign, d, after)
  {
    var k := if Signed(s) then 1 else 0;
    NeedsDigits(s, k);
    var t := s[k..];
    var n := LeadingDigits(t, 10);
    DigitsCut(t, n);
    sign, d, after := s[..k], t[..n], t[n..];
    assert s == sign + t;
    Associates(sign, d, after);
  }

  // Spaces, a decimal number, spaces, an opening parenthesis with 0x, and the rest.
  ghost predicate VersionParts(s: string, lead: string, sign: string, d: string, gap: string, rest: string) {
    && s == lead + (sign + d + (gap + ("(0x" + rest)))
    && AllSpaces(lead) && IsSign(sign) && d != "" && AllDigits(d, 10) && AllSpaces(gap)
  }

  // The same number again, in base sixteen and at most eight characters.
  ghost predicate Again(rest: string, v: nat) { var hex := Scan(rest, 16, 8); hex.Some? && hex.value.0 == v }

  ghost predicate IsVersion(s: string, v: nat, lead: string, sign: string, d: string, gap: string, rest: string) {
    VersionParts(s, lead, sign, d, gap, rest) && v == Converted(Value(d, 10), Negative(sign)) && Again(rest, v)
  }

  /** A version is read exactly if a decimal number is followed by "(0x" and the same number in base sixteen.  The
      closing parenthesis, and what comes after the digits, do not matter. */
  lemma {:induction false} VersionIff(s: string, v: nat)
    ensures ParseGpoVersion(s) == Some(v) <==> exists lead, sign, d, gap, rest :: IsVersion(s, v, lead, sign, d, gap, rest)
  {
    if ParseGpoVersion(s) == Some(v) { VersionHasParts(s, v); }
    if lead, sign, d, gap, rest :| IsVersion(s, v, lead, sign, d, gap, rest) { PartsAreVersion(s, lead, sign, d, gap, rest, v); }
  }

  lemma {:induction false} ConfirmsIff(after: string, gap: string, u: string, v: nat)
    requires after == gap + u && u == TrimLeft(after)
    ensures Confirms(after, v) <==> exists rest :: u == "(0x" + rest && Again(rest, v)
  {
    if Confirms(after, v) { assert u == "(0x" + u[3..]; }
    if rest :| u == "(0x" + rest && Again(rest, v) { assert u[3..] == rest && u[0] == '(' && u[1] == '0' && u[2] == 'x'; }
  }

  lemma {:induction false} TrimsShorter(s: string)
    ensures |TrimLeft(s)| <= |s|
  {
    var lead := LeftOf(s);
  }

  lemma {:induction false} VersionHasParts(s: string, v: nat)
    requires ParseGpoVersion(s) == Some(v)
    ensures exists lead, sign, d, gap, rest :: IsVersion(s, v, lead, sign, d, gap, rest)
  {
    var lead := LeftOf(s);
    var t := TrimLeft(s);
    var sign, d, after := ScansDecimal(t);
    DecimalScans(t, sign, d, after);
    var gap := LeftOf(after);
    ConfirmsIff(after, gap, TrimLeft(after), v);
    var rest :| TrimLeft(after) == "(0x" + rest && Again(rest, v);
    assert IsVersion(s, v, lead, sign, d, gap, rest);
  }

  lemma {:induction false} PartsAreVersion(s: string, lead: string, sign: string, d: string, gap: string, rest: string, v: nat)
    requires IsVersion(s, v, lead, sign, d, gap, rest)
    ensures ParseGpoVersion(s) == Some(v)
  {
    var u := "(0x" + rest;
    var after := gap + u;
    var t := sign + d + after;
    SignedIff(sign, d, after);
    TrimsLead(lead, t);
    AfterGap(gap, u);
    DecimalScans(t, sign, d, after);
    ConfirmsIff(after, gap, u, v);
    assert Field(t, |s|) == t;
  }

  lemma {:induction false} AfterGap(gap: string, u: string)
    requires AllSpaces(gap) && u != "" && u[0] == '('
    ensures DigitValue((gap + u)[0]) >= 10 && TrimLeft(gap + u) == u
  {
    assert (gap + u)[0] == if gap == "" then '(' else gap[0];
    TrimsLead(gap, u);
  }

  // --- paths ---

  /** A path made of steps between backslashes, none of them with a slash or with spaces about it, is accepted
      exactly if it has at least four and the first two are empty; the next two are the share. */
  lemma {:induction false} StepsIff(g: Gpo, steps: seq<string>)
    requires steps != [] && Free(steps, SLASHES) && TrimAll(steps) == steps && g.path == Join(steps, "\\")
    ensures ToEntry(g) == if |steps| >= 4 && steps[0] == "" && steps[1] == ""
                          then Some(Entry(g.name, steps[2] + "/" + steps[3], Join(steps[4..], "\\"))) else None
  {
    SplitJoin(steps, '\\', SLASHES);
    assert "\\" == ['\\'];
    if g.path == "" { SplitNone("", SLASHES); }
  }

  // --- lines ---

  ghost predicate IsField(line: string) { !IsSeparator(line) && FirstColon(line) + 1 < |line| }

  ghost function KeyOf(line: string): string { line[..FirstColon(line)] }

  ghost function ValueOf(line: string): string
    requires FirstColon(line) < |line|
  {
    Trim(line[FirstColon(line)+1..])
  }

  // The fields of an object.
  datatype Attr = Name | Path | UserVersion | MachineVersion | Options

  ghost function KeyText(a: Attr): string {
    match a
    case Name => "name"
    case Path => "filesyspath"
    case UserVersion => "version_user"
    case MachineVersion => "version_machine"
    case Options => "options"
  }

  // A value that fills the field: an empty name or a version of zero is as good as none.
  ghost predicate Fills(a: Attr, value: string) {
    match a
    case Name => value != ""
    case Path => value != ""
    case Options => ParseGpFlags(value).Some?
    case _ => ParseGpoVersion(value).Some? && ParseGpoVersion(value).value != 0
  }

  ghost predicate Malformed(a: Attr, value: string) {
    match a
    case Name => false
    case Path => false
    case Options => ParseGpFlags(value).None?
    case _ => ParseGpoVersion(value).None?
  }

  ghost predicate Gives(line: string, a: Attr) { IsField(line) && KeyOf(line) == KeyText(a) && Fills(a, ValueOf(line)) }

  // What the lines since the last separator give the field.
  ghost function Given(lines: seq<string>, a: Attr): Option<string> {
    if lines == [] || IsSeparator(lines[|lines|-1]) then None
    else if Gives(lines[|lines|-1], a) then Some(ValueOf(lines[|lines|-1]))
    else Given(lines[..|lines|-1], a)
  }

  // The field of the object holds the value, or nothing.
  ghost predicate Holds(g: Gpo, a: Attr, value: Option<string>) {
    (value.Some? ==> Fills(a, value.value)) &&
    match a
    case Name => g.name == if value.Some? then value.value else ""
    case Path => g.path == if value.Some? then value.value else ""
    case UserVersion => if value.Some? then ParseGpoVersion(value.value) == Some(g.versionUser) else g.versionUser == 0
    case MachineVersion => if value.Some? then ParseGpoVersion(value.value) == Some(g.versionMachine) else g.versionMachine == 0
    case Options => if value.Some? then ParseGpFlags(value.value) == Some(g.flags) else g.flags == GPFLAG_INVALID
  }

  // The object that the lines since the last separator describe.
  ghost predicate Described(lines: seq<string>, g: Gpo) { forall a :: Holds(g, a, Given(lines, a)) }

  // The line is wrong where it stands: its field has been filled since the last separator, or its value is malformed.
  ghost predicate Wrong(before: seq<string>, line: string) {
    IsField(line) && exists a :: KeyOf(line) == KeyText(a) && (Given(before, a).Some? || Malformed(a, ValueOf(line)))
  }

  // Some line is.
  ghost predicate HasWrong(lines: seq<string>) {
    lines != [] && (HasWrong(lines[..|lines|-1]) || Wrong(lines[..|lines|-1], lines[|lines|-1]))
  }

  lemma {:induction false} KeysDiffer(a: Attr, b: Attr)
    ensures KeyText(a) == KeyText(b) ==> a == b
  {
    assert "name"[0] == 'n' && "filesyspath"[0] == 'f' && "version_user"[0] == 'v' && "version_machine"[0] == 'v' && "options"[0] == 'o';
    assert "version_user"[8] == 'u' && "version_machine"[8] == 'm';
  }

  lemma {:induction false} FlagsInRange(s: string)
    ensures ParseGpFlags(s).Some? ==> ParseGpFlags(s).value != GPFLAG_INVALID
  {
    if ParseGpFlags(s).Some? { FlagsIff(s, ParseGpFlags(s).value); }
  }

  // Setting a field that holds `held`.
  lemma {:induction false} SetAttr(g: Gpo, a: Attr, value: string, held: Option<string>)
    requires Holds(g, a, held)
    ensures var r := SetField(g, KeyText(a), value);
            && (r.None? <==> held.Some? || Malformed(a, value))
            && (r.Some? ==> Holds(r.value, a, if Fills(a, value) then Some(value) else None))
  {
    KeysDiffer(Name, a); KeysDiffer(Path, a); KeysDiffer(UserVersion, a); KeysDiffer(MachineVersion, a);
    if held.Some? { FlagsInRange(held.value); }
  }

  lemma {:induction false} SetKeepsAttr(g: Gpo, key: string, value: string, b: Attr, held: Option<string>)
    requires Holds(g, b, held) && key != KeyText(b) && SetField(g, key, value).Some?
    ensures Holds(SetField(g, key, value).value, b, held)
  {
  }

  lemma {:induction false} OtherKey(g: Gpo, key: string, value: string)
    requires forall a :: key != KeyText(a)
    ensures SetField(g, key, value) == Some(g)
  {
    assert key != KeyText(Name) && key != KeyText(Path) && key != KeyText(UserVersion) && key != KeyText(MachineVersion) && key != KeyText(Options);
  }

  lemma {:induction false} GivenNext(before: seq<string>, line: string, a: Attr)
    ensures Given(before + [line], a)
            == if IsSeparator(line) then None else if Gives(line, a) then Some(ValueOf(line)) else Given(before, a)
  {
    assert (before + [line])[..|before|] == before;
  }

  // One more field line, of a known key or another.
  lemma {:induction false} KnownNext(g: Gpo, before: seq<string>, line: string, a: Attr)
    requires IsField(line) && Described(before, g) && KeyOf(line) == KeyText(a)
    ensures SetField(g, KeyOf(line), ValueOf(line)).None? <==> Wrong(before, line)
    ensures SetField(g, KeyOf(line), ValueOf(line)).Some? ==> Described(before + [line], SetField(g, KeyOf(line), ValueOf(line)).value)
  {
    SetAttr(g, a, ValueOf(line), Given(before, a));
    forall b ensures KeyOf(line) == KeyText(b) ==> b == a { KeysDiffer(b, a); }
    var r := SetField(g, KeyOf(line), ValueOf(line));
    if r.Some? {
      forall b ensures Holds(r.value, b, Given(before + [line], b)) {
        GivenNext(before, line, b);
        if b != a { KeysDiffer(b, a); SetKeepsAttr(g, KeyOf(line), ValueOf(line), b, Given(before, b)); }
      }
    }
  }

  lemma {:induction false} FieldNext(g: Gpo, before: seq<string>, line: string)
    requires IsField(line) && Described(before, g)
    ensures SetField(g, KeyOf(line), ValueOf(line)).None? <==> Wrong(before, line)
    ensures SetField(g, KeyOf(line), ValueOf(line)).Some? ==> Described(before + [line], SetField(g, KeyOf(line), ValueOf(line)).value)
  {
    if a :| KeyOf(line) == KeyText(a) { KnownNext(g, before, line, a); }
    else {
      OtherKey(g, KeyOf(line), ValueOf(line));
      forall b ensures Holds(g, b, Given(before + [line], b)) { GivenNext(before, line, b); }
    }
  }

  lemma {:induction false} OtherNext(g: Gpo, before: seq<string>, line: string)
    requires !IsField(line) && !IsSeparator(line) && Described(before, g)
    ensures Described(before + [line], g)
  {
    forall b ensures Holds(g, b, Given(before + [line], b)) { GivenNext(before, line, b); }
  }

  lemma {:induction false} SeparatorNext(before: seq<string>, line: string)
    requires IsSeparator(line)
    ensures Described(before + [line], CLEAR)
  {
    forall b ensures Holds(CLEAR, b, Given(before + [line], b)) { GivenNext(before, line, b); }
  }

  // The objects that are complete before the last separator.
  ghost predicate Complete(lines: seq<string>, scope: Scope, list: seq<Gpo>) {
    if lines == [] then list == []
    else
      var front := lines[..|lines|-1];
      if !IsSeparator(lines[|lines|-1]) then Complete(front, scope, list)
      else exists before, g :: Complete(front, scope, before) && Described(front, g) && list == before + Pushed(g, scope)
  }

  lemma {:induction false} Started()
    ensures Described([], CLEAR)
  {
  }

  /** Any lines whatever: they are refused exactly if one of them is wrong where it stands; and otherwise the
      objects are those that the blocks between separators describe. */
  lemma {:induction false} LinesRefusedIff(lines: seq<string>, scope: Scope)
    ensures ParseLines(START, scope, lines).None? <==> HasWrong(lines)
    ensures ParseLines(START, scope, lines).Some? ==>
              var p := ParseLines(START, scope, lines).value;
              Described(lines, p.current) && Complete(lines, scope, p.list)
    decreases |lines|
  {
    if lines == [] { Started(); }
    else {
      var front, line := lines[..|lines|-1], lines[|lines|-1];
      LinesRefusedIff(front, scope);
      Snoc(lines);
      var p := ParseLines(START, scope, front);
      if p.Some? {
        if IsSeparator(line) { SeparatorNext(front, line); }
        else if IsField(line) { FieldNext(p.value.current, front, line); }
        else { OtherNext(p.value.current, front, line); }
      }
    }
  }

  /** A description is of one object only. */
  lemma {:induction false} DescribedOnce(lines: seq<string>, g: Gpo, h: Gpo)
    requires Described(lines, g) && Described(lines, h)
    ensures g == h
  {
    assert Holds(g, Name, Given(lines, Name)) && Holds(g, Path, Given(lines, Path)) && Holds(g, Options, Given(lines, Options));
    assert Holds(g, UserVersion, Given(lines, UserVersion)) && Holds(g, MachineVersion, Given(lines, MachineVersion));
  }

  lemma {:induction false} MapAllIff<A, B>(f: A -> Option<B>, xs: seq<A>)
    ensures MapAll(f, xs).None? <==> exists i :: 0 <= i < |xs| && f(xs[i]).None?
    ensures MapAll(f, xs).Some? ==> |MapAll(f, xs).value| == |xs| && forall i :: 0 <= i < |xs| ==> f(xs[i]) == Some(MapAll(f, xs).value[i])
    decreases |xs|
  {
    if xs != [] {
      var front := xs[..|xs|-1];
      MapAllIff(f, front);
      if i :| 0 <= i < |front| && f(front[i]).None? { assert f(xs[i]).None?; }
      if i :| 0 <= i < |xs| && f(xs[i]).None? { assert i < |front| ==> f(front[i]).None?; }
    }
  }

  // The objects that apply, by block.
  ghost predicate Found(text: string, scope: Scope, gs: seq<Gpo>) {
    exists list, g :: Complete(Lines(text), scope, list) && Described(Lines(text), g) && gs == list + Pushed(g, scope)
  }

  /** A text is refused exactly if it has no separator, or a line that is wrong where it stands, or an object that
      applies has a path that cannot be split; and otherwise gives one entry for each object that applies. */
  lemma {:induction false} TextRefusedIff(text: string, scope: Scope)
    ensures ParseGpoList(text, scope).None? <==>
              || !HasSeparator(text) || HasWrong(Lines(text))
              || exists gs: seq<Gpo>, i :: Found(text, scope, gs) && 0 <= i < |gs| && ToEntry(gs[i]).None?
    ensures ParseGpoList(text, scope).Some? ==>
              exists gs :: Found(text, scope, gs) && |gs| == |ParseGpoList(text, scope).value|
                && forall i :: 0 <= i < |gs| ==> ToEntry(gs[i]) == Some(ParseGpoList(text, scope).value[i])
  {
    LinesRefusedIff(Lines(text), scope);
    if !HasSeparator(text) { NoSeparatorFails(text, scope); }
    else if !HasWrong(Lines(text)) {
      FoundEverywhere(text, scope);
      var p := ParseLines(START, scope, Lines(text)).value;
      var gs := All(p, scope);
      assert Found(text, scope, gs);
      MapAllIff(ToEntry, gs);
      forall other | Found(text, scope, other) ensures other == gs { FoundOnce(text, scope, gs, other); }
    }
  }

  lemma {:induction false} CompleteOnce(lines: seq<string>, scope: Scope, a: seq<Gpo>, b: seq<Gpo>)
    requires Complete(lines, scope, a) && Complete(lines, scope, b)
    ensures a == b
    decreases |lines|
  {
    if lines != [] {
      var front := lines[..|lines|-1];
      if !IsSeparator(lines[|lines|-1]) { CompleteOnce(front, scope, a, b); }
      else {
        var x, g :| Complete(front, scope, x) && Described(front, g) && a == x + Pushed(g, scope);
        var y, h :| Complete(front, scope, y) && Described(front, h) && b == y + Pushed(h, scope);
        CompleteOnce(front, scope, x, y);
        DescribedOnce(front, g, h);
      }
    }
  }

  lemma {:induction false} FoundOnce(text: string, scope: Scope, a: seq<Gpo>, b: seq<Gpo>)
    requires Found(text, scope, a) && Found(text, scope, b)
    ensures a == b
  {
    var x, g :| Complete(Lines(text), scope, x) && Described(Lines(text), g) && a == x + Pushed(g, scope);
    var y, h :| Complete(Lines(text), scope, y) && Described(Lines(text), h) && b == y + Pushed(h, scope);
    CompleteOnce(Lines(text), scope, x, y);
    DescribedOnce(Lines(text), g, h);
  }

  /** An object is kept exactly if it has a name, a path and flags, its version for the scope is not zero, and
      the flags do not disable the scope. */
  lemma {:induction false} PushedIff(g: Gpo, scope: Scope)
    requires g.flags <= GPFLAG_INVALID
    ensures Pushed(g, scope) == [g] || Pushed(g, scope) == []
    ensures Pushed(g, scope) == [g] <==>
              && g.name != "" && g.path != ""
              && (scope == User ==> g.versionUser != 0 && g.flags in {0, 2})
              && (scope == Machine ==> g.versionMachine != 0 && g.flags in {0, 1})
  {
  }
}
