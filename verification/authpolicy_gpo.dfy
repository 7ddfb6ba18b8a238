/**
 authpolicy's parser of the output of 'net ads gpo list': blocks of key and value lines, one block for
 each group policy object, with a separator line before each.
 */
module AuthpolicyGpo {
  import opened Common
  import opened AuthpolicyText

  const SEPARATOR := Dashes(21)

  function Dashes(n: nat): (s: string)
    ensures |s| == n && forall i :: 0 <= i < n ==> s[i] == '-'
  {
    if n == 0 then "" else Dashes(n - 1) + "-"
  }

  const GPFLAG_USER_DISABLED := 1
  const GPFLAG_MACHINE_DISABLED := 2
  const GPFLAG_COUNT := 4
  const GPFLAG_INVALID := 4

  const GPFLAGS: seq<string> := [
    "0 GPFLAGS_ALL_ENABLED",
    "1 GPFLAGS_USER_SETTINGS_DISABLED",
    "2 GPFLAGS_MACHINE_SETTINGS_DISABLED",
    "3 GPFLAGS_ALL_DISABLED"]

  datatype Scope = User | Machine

  datatype Gpo = Gpo(name: string, path: string, versionUser: nat, versionMachine: nat, flags: nat)

  const CLEAR := Gpo("", "", 0, 0, GPFLAG_INVALID)

  predicate IsValid(g: Gpo) {
    g.name != "" && g.path != "" && !(g.versionUser == 0 && g.versionMachine == 0) && g.flags != GPFLAG_INVALID
  }

  predicate IsEmpty(g: Gpo) {
    g.name == "" && g.path == "" && g.versionUser == 0 && g.versionMachine == 0 && g.flags == GPFLAG_INVALID
  }

  // Bit `mask` of the flags, for a mask of 1 or 2.
  predicate HasFlag(flags: nat, mask: nat)
    requires mask > 0
  {
    flags / mask % 2 == 1
  }

  // There is policy for the scope, and it is not disabled.
  predicate Applies(g: Gpo, scope: Scope) {
    match scope
    case User => g.versionUser != 0 && !HasFlag(g.flags, GPFLAG_USER_DISABLED)
    case Machine => g.versionMachine != 0 && !HasFlag(g.flags, GPFLAG_MACHINE_DISABLED)
  }

  // What PushGpo adds to the list.
  function Pushed(g: Gpo, scope: Scope): seq<Gpo> {
    if !IsEmpty(g) && IsValid(g) && Applies(g, scope) then [g] else []
  }

  // --- values ---

  // The same number follows in base sixteen.
  predicate Confirms(rest: string, v: nat) {
    var s := TrimLeft(rest);
    |s| >= 3 && s[0] == '(' && s[1] == '0' && s[2] == 'x' &&
    var hex := Scan(s[3..], 16, 8);
    hex.Some? && hex.value.0 == v
  }

  function ParseGpoVersion(s: string): Option<nat> {
    var decimal := Scan(s, 10, |s|);
    if decimal.Some? && Confirms(decimal.value.1, decimal.value.0) then Some(decimal.value.0) else None
  }

  function FlagsFrom(s: string, i: nat): Option<nat>
    decreases GPFLAG_COUNT - i
  {
    if i >= GPFLAG_COUNT then None else if s == GPFLAGS[i] then Some(i) else FlagsFrom(s, i + 1)
  }

  function ParseGpFlags(s: string): Option<nat> { FlagsFrom(s, 0) }

  // --- lines ---

  predicate IsSeparator(line: string) { SEPARATOR <= line }

  function FirstColon(line: string): (i: nat)
    ensures i <= |line| && (i < |line| ==> line[i] == ':') && ':' !in line[..i]
  {
    if line == "" || line[0] == ':' then 0
    else
      var i := FirstColon(line[1..]);
      assert line[..i+1] == [line[0]] + line[1..][..i];
      i + 1
  }

  // One field of the current object; None if it is set already or the value is malformed.
  function SetField(g: Gpo, key: string, value: string): Option<Gpo> {
    if key == "name" then (if g.name != "" then None else Some(g.(name := value)))
    else if key == "filesyspath" then (if g.path != "" then None else Some(g.(path := value)))
    else if key == "version_user" then
      var v := ParseGpoVersion(value);
      if g.versionUser != 0 || v.None? then None else Some(g.(versionUser := v.value))
    else if key == "version_machine" then
      var v := ParseGpoVersion(value);
      if g.versionMachine != 0 || v.None? then None else Some(g.(versionMachine := v.value))
    else if key == "options" then
      var f := ParseGpFlags(value);
      if g.flags != GPFLAG_INVALID || f.None? then None else Some(g.(flags := f.value))
    else Some(g)
  }

  datatype Parser = Parser(current: Gpo, list: seq<Gpo>, found: bool)

  const START := Parser(CLEAR, [], false)

  function ParseLine(p: Parser, scope: Scope, line: string): Option<Parser> {
    if IsSeparator(line) then Some(Parser(CLEAR, p.list + Pushed(p.current, scope), true))
    else
      var colon := FirstColon(line);
      if colon + 1 >= |line| then Some(p)
      else
        var g := SetField(p.current, line[..colon], Trim(line[colon+1..]));
        if g.None? then None else Some(p.(current := g.value))
  }

  function ParseLines(p: Parser, scope: Scope, lines: seq<string>): Option<Parser> {
    if lines == [] then Some(p)
    else
      var q := ParseLines(p, scope, lines[..|lines|-1]);
      if q.None? then None else ParseLine(q.value, scope, lines[|lines|-1])
  }

  // --- paths ---

  datatype Entry = Entry(name: string, basepath: string, directory: string)

  const SLASHES := {'\\', '/'}

  function TrimAll(ps: seq<string>): (ts: seq<string>)
    ensures |ts| == |ps|
  {
    if ps == [] then [] else TrimAll(ps[..|ps|-1]) + [Trim(ps[|ps|-1])]
  }

  function PathParts(path: string): seq<string> { if path == "" then [] else TrimAll(Split(path, SLASHES)) }

  function ToEntry(g: Gpo): Option<Entry> {
    var parts := PathParts(g.path);
    if |parts| < 4 || parts[0] != "" || parts[1] != "" then None
    else Some(Entry(g.name, parts[2] + "/" + parts[3], Join(parts[4..], "\\")))
  }

  // Every element converted, or nothing if one cannot be.
  function MapAll<A, B>(f: A -> Option<B>, xs: seq<A>): Option<seq<B>> {
    if xs == [] then Some([])
    else
      var ys, y := MapAll(f, xs[..|xs|-1]), f(xs[|xs|-1]);
      if ys.None? || y.None? then None else Some(ys.value + [y.value])
  }

  function ToEntries(gs: seq<Gpo>): Option<seq<Entry>> { MapAll(ToEntry, gs) }

  // The path that an entry was made from, `whole` if it goes on below the base path.
  function Rejoined(server: string, share: string, directory: string, whole: bool): string {
    "\\" + "\\" + server + "\\" + share + (if whole then "\\" + directory else "")
  }

  lemma {:induction false} RejoinedParts(g: Gpo)
    requires ToEntry(g).Some?
    ensures var parts := PathParts(g.path);
            Rejoined(parts[2], parts[3], ToEntry(g).value.directory, |parts| > 4) == Join(parts, "\\")
  {
    var parts := PathParts(g.path);
    assert parts == parts[..4] + parts[4..];
    JoinFour(parts[..4]);
    if |parts| > 4 { JoinAt(parts[..4], parts[4..], "\\"); } else { assert parts == parts[..4]; }
  }

  lemma {:induction false} TrimAllFree(ps: seq<string>, seps: set<char>)
    requires Free(ps, seps)
    ensures Free(TrimAll(ps), seps)
    decreases |ps|
  {
    if ps != [] {
      TrimAllFree(ps[..|ps|-1], seps);
      TrimFree(ps[|ps|-1], seps);
    }
  }

  /** A path can be put together again from its entry if and only if it has backslashes only and no spaces
      about them. */
  lemma {:induction false} PathIsKept(g: Gpo)
    requires ToEntry(g).Some?
    ensures var e, parts := ToEntry(g).value, PathParts(g.path);
            && e.basepath == parts[2] + "/" + parts[3]
            && (g.path == Rejoined(parts[2], parts[3], e.directory, |parts| > 4) <==>
                  '/' !in g.path && TrimAll(Split(g.path, SLASHES)) == Split(g.path, SLASHES))
  {
    var parts := PathParts(g.path);
    RejoinedParts(g);
    if '/' !in g.path { JoinSplit(g.path, '\\', SLASHES); }
    SplitFree(g.path, SLASHES);
    TrimAllFree(Split(g.path, SLASHES), SLASHES);
    if g.path == Join(parts, "\\") {
      SplitJoin(parts, '\\', SLASHES);
      assert Free(parts, {'/'});
      JoinFree(parts, "\\", '/');
    }
  }

  lemma {:induction false} JoinFour(ps: seq<string>)
    requires |ps| == 4 && ps[0] == "" && ps[1] == ""
    ensures Join(ps, "\\") == "\\" + "\\" + ps[2] + "\\" + ps[3]
  {
    assert ps[..3][..2] == ps[..2] && ps[..2][..1] == ps[..1];
    assert Join(ps[..1], "\\") == "";
    assert Join(ps[..2], "\\") == "" + "\\" + "" == "\\";
    assert Join(ps[..3], "\\") == "\\" + "\\" + ps[2];
  }

  // --- the whole ---

  // Everything pushed once the last line is read.
  function All(p: Parser, scope: Scope): seq<Gpo> { p.list + Pushed(p.current, scope) }

  // None stands for a parse failure.
  function ParseGpoList(text: string, scope: Scope): Option<seq<Entry>> {
    var p := ParseLines(START, scope, Lines(text));
    if p.None? || !p.value.found then None else ToEntries(All(p.value, scope))
  }

  // --- parsing distributes over concatenation at separators ---

  function Both<T>(a: Option<seq<T>>, b: Option<seq<T>>): Option<seq<T>> {
    if a.None? || b.None? then None else Some(a.value + b.value)
  }

  function Gpos(lines: seq<string>, scope: Scope): Option<seq<Gpo>> {
    var p := ParseLines(START, scope, lines);
    if p.None? then None else Some(All(p.value, scope))
  }

  function Behind(list: seq<Gpo>, p: Parser): Parser { p.(list := list + p.list) }

  lemma {:induction false} ParseLinesAt(p: Parser, scope: Scope, xs: seq<string>, ys: seq<string>)
    ensures ParseLines(p, scope, xs + ys) ==
            var q := ParseLines(p, scope, xs);
            if q.None? then None else ParseLines(q.value, scope, ys)
    decreases |ys|
  {
    if ys == [] { assert xs + ys == xs; }
    else {
      assert (xs + ys)[..|xs+ys|-1] == xs + ys[..|ys|-1];
      ParseLinesAt(p, scope, xs, ys[..|ys|-1]);
    }
  }

  // What was pushed before plays no part in what follows.
  lemma {:induction false} ParseLinesBehind(list: seq<Gpo>, p: Parser, scope: Scope, lines: seq<string>)
    ensures ParseLines(Behind(list, p), scope, lines) ==
            var q := ParseLines(p, scope, lines);
            if q.None? then None else Some(Behind(list, q.value))
    decreases |lines|
  {
    if lines != [] {
      ParseLinesBehind(list, p, scope, lines[..|lines|-1]);
      var q := ParseLines(p, scope, lines[..|lines|-1]);
      if q.Some? { ParseLineBehind(list, q.value, scope, lines[|lines|-1]); }
    }
  }

  lemma {:induction false} ParseLineBehind(list: seq<Gpo>, p: Parser, scope: Scope, line: string)
    ensures ParseLine(Behind(list, p), scope, line) ==
            var q := ParseLine(p, scope, line);
            if q.None? then None else Some(Behind(list, q.value))
  {
    assert list + (p.list + Pushed(p.current, scope)) == list + p.list + Pushed(p.current, scope);
  }

  ghost predicate SeparatorIn(lines: seq<string>) { exists i :: 0 <= i < |lines| && IsSeparator(lines[i]) }

  lemma {:induction false} FoundIff(p: Parser, scope: Scope, lines: seq<string>)
    requires ParseLines(p, scope, lines).Some?
    ensures ParseLines(p, scope, lines).value.found <==> p.found || SeparatorIn(lines)
    decreases |lines|
  {
    if lines != [] {
      var front, q := lines[..|lines|-1], ParseLines(p, scope, lines[..|lines|-1]);
      FoundIff(p, scope, front);
      SeparatorInNext(lines);
      FoundStep(q.value, scope, lines[|lines|-1]);
    }
  }

  lemma {:induction false} SeparatorInNext(lines: seq<string>)
    requires lines != []
    ensures SeparatorIn(lines) <==> SeparatorIn(lines[..|lines|-1]) || IsSeparator(lines[|lines|-1])
  {
    var front := lines[..|lines|-1];
    if SeparatorIn(front) {
      var i :| 0 <= i < |front| && IsSeparator(front[i]);
      assert IsSeparator(lines[i]);
    }
    if SeparatorIn(lines) && !IsSeparator(lines[|lines|-1]) {
      var i :| 0 <= i < |lines| && IsSeparator(lines[i]);
      assert IsSeparator(front[i]);
    }
  }

  lemma {:induction false} FoundStep(p: Parser, scope: Scope, line: string)
    requires ParseLine(p, scope, line).Some?
    ensures ParseLine(p, scope, line).value.found <==> p.found || IsSeparator(line)
  {
  }

  lemma {:induction false} AfterSeparator(p: Parser, scope: Scope, ys: seq<string>)
    requires ys != [] && IsSeparator(ys[0])
    ensures ParseLines(p, scope, ys) ==
            var q := ParseLines(START, scope, ys);
            if q.None? then None else Some(Behind(All(p, scope), q.value))
  {
    SeparatorFirst(p, scope, ys);
    SeparatorFirst(START, scope, ys);
    var blank := Parser(CLEAR, [], true);
    assert All(START, scope) == [];
    assert Behind(All(p, scope), blank) == Parser(CLEAR, All(p, scope), true);
    ParseLinesBehind(All(p, scope), blank, scope, ys[1..]);
  }

  lemma {:induction false} SeparatorFirst(p: Parser, scope: Scope, ys: seq<string>)
    requires ys != [] && IsSeparator(ys[0])
    ensures ParseLines(p, scope, ys) == ParseLines(Parser(CLEAR, All(p, scope), true), scope, ys[1..])
  {
    assert ys == [ys[0]] + ys[1..];
    ParseLinesAt(p, scope, [ys[0]], ys[1..]);
    OneLine(p, scope, ys[0]);
  }

  lemma {:induction false} OneLine(p: Parser, scope: Scope, line: string)
    ensures ParseLines(p, scope, [line]) == ParseLine(p, scope, line)
  {
    assert [line][..0] == [];
  }

  /** Lines cut before a separator: the objects of the whole are those of the parts, in order, and the
      whole fails exactly if a part does. */
  lemma {:induction false} GposAt(xs: seq<string>, ys: seq<string>, scope: Scope)
    requires ys != [] && IsSeparator(ys[0])
    ensures Gpos(xs + ys, scope) == Both(Gpos(xs, scope), Gpos(ys, scope))
  {
    ParseLinesAt(START, scope, xs, ys);
    var p := ParseLines(START, scope, xs);
    if p.Some? {
      AfterSeparator(p.value, scope, ys);
      var q := ParseLines(START, scope, ys);
      if q.Some? {
        assert All(p.value, scope) + q.value.list + Pushed(q.value.current, scope) == All(p.value, scope) + All(q.value, scope);
      }
    }
  }

  lemma {:induction false} MapAllAt<A, B>(f: A -> Option<B>, a: seq<A>, b: seq<A>)
    ensures MapAll(f, a + b) == Both(MapAll(f, a), MapAll(f, b))
    decreases |b|
  {
    if b == [] {
      assert a + b == a;
      if MapAll(f, a).Some? { assert MapAll(f, a).value + [] == MapAll(f, a).value; }
    } else {
      assert (a + b)[..|a+b|-1] == a + b[..|b|-1];
      MapAllAt(f, a, b[..|b|-1]);
      var x, y, e := MapAll(f, a), MapAll(f, b[..|b|-1]), f(b[|b|-1]);
      if x.Some? && y.Some? && e.Some? { assert x.value + y.value + [e.value] == x.value + (y.value + [e.value]); }
    }
  }

  ghost predicate HasSeparator(text: string) { SeparatorIn(Lines(text)) }

  ghost predicate StartsAtSeparator(text: string) { Lines(text) != [] && IsSeparator(Lines(text)[0]) }

  /** Any two texts: if the first holds a separator and the second starts at one, parsing them together
      gives the entries of the one and then of the other, or fails if either fails. */
  lemma {:induction false} ParseAt(a: string, b: string, scope: Scope)
    requires HasSeparator(a) && StartsAtSeparator(b)
    ensures ParseGpoList(a + "\n" + b, scope) == Both(ParseGpoList(a, scope), ParseGpoList(b, scope))
  {
    LinesAt(a, b);
    GposAt(Lines(a), Lines(b), scope);
    var xs, ys := Lines(a), Lines(b);
    assert (xs + ys)[|xs|] == ys[0];
    FoundEverywhere(a, scope);
    FoundEverywhere(b, scope);
    FoundEverywhere(a + "\n" + b, scope);
    var p, q := Gpos(xs, scope), Gpos(ys, scope);
    if p.Some? && q.Some? { MapAllAt(ToEntry, p.value, q.value); }
  }

  // With a separator, the list is what the objects convert to.
  lemma {:induction false} FoundEverywhere(text: string, scope: Scope)
    requires HasSeparator(text)
    ensures ParseGpoList(text, scope) ==
            var gs := Gpos(Lines(text), scope);
            if gs.None? then None else ToEntries(gs.value)
  {
    if ParseLines(START, scope, Lines(text)).Some? { FoundIff(START, scope, Lines(text)); }
  }

  /** Without a separator anywhere there is no list, whatever else the text holds. */
  lemma {:induction false} NoSeparatorFails(text: string, scope: Scope)
    requires !HasSeparator(text)
    ensures ParseGpoList(text, scope).None?
  {
    if ParseLines(START, scope, Lines(text)).Some? { FoundIff(START, scope, Lines(text)); }
  }

  // --- the loops ---

  method PushGpo(gpo: Gpo, scope: Scope, list: seq<Gpo>) returns (pushed: seq<Gpo>)
    ensures pushed == list + Pushed(gpo, scope)
  {
    if IsEmpty(gpo) {
      return list;
    }
    if !IsValid(gpo) {
      return list;
    }
    var filtered := false;
    match scope {
      case User => filtered := gpo.versionUser == 0 || HasFlag(gpo.flags, GPFLAG_USER_DISABLED);
      case Machine => filtered := gpo.versionMachine == 0 || HasFlag(gpo.flags, GPFLAG_MACHINE_DISABLED);
    }
    return if filtered then list else list + [gpo];
  }

  method FindGpFlags(s: string) returns (r: Option<nat>)
    ensures r == ParseGpFlags(s)
  {
    for flag := 0 to GPFLAG_COUNT
      invariant ParseGpFlags(s) == FlagsFrom(s, flag)
    {
      if s == GPFLAGS[flag] {
        return Some(flag);
      }
    }
    return None;
  }

  lemma {:induction false} FailsEarly(p: Parser, scope: Scope, lines: seq<string>, n: nat)
    requires n <= |lines| && ParseLines(p, scope, lines[..n]).None?
    ensures ParseLines(p, scope, lines).None?
  {
    ParseLinesAt(p, scope, lines[..n], lines[n..]);
    assert lines == lines[..n] + lines[n..];
  }

  // A field that is set twice is an error, and so is a value that does not parse.
  method StoreField(g: Gpo, key: string, value: string) returns (r: Option<Gpo>)
    ensures r == SetField(g, key, value)
  {
    if key == "name" {
      return if g.name != "" then None else Some(g.(name := value));
    } else if key == "filesyspath" {
      return if g.path != "" then None else Some(g.(path := value));
    } else if key == "version_user" {
      var v := ParseGpoVersion(value);
      return if g.versionUser != 0 || v.None? then None else Some(g.(versionUser := v.value));
    } else if key == "version_machine" {
      var v := ParseGpoVersion(value);
      return if g.versionMachine != 0 || v.None? then None else Some(g.(versionMachine := v.value));
    } else if key == "options" {
      var f := FindGpFlags(value);
      return if g.flags != GPFLAG_INVALID || f.None? then None else Some(g.(flags := f.value));
    }
    return Some(g);
  }

  // The body of the loop over lines.
  method ReadLine(p: Parser, scope: Scope, line: string) returns (r: Option<Parser>)
    ensures r == ParseLine(p, scope, line)
  {
    if IsSeparator(line) {
      var list := PushGpo(p.current, scope, p.list);
      return Some(Parser(CLEAR, list, true));
    }
    var colon := FirstColon(line);
    if colon == |line| || colon + 1 >= |line| {
      return Some(p);
    }
    var next := StoreField(p.current, line[..colon], Trim(line[colon+1..]));
    if next.None? {
      return None;
    }
    return Some(p.(current := next.value));
  }

  method ReadLines(lines: seq<string>, scope: Scope) returns (r: Option<Parser>)
    ensures r == ParseLines(START, scope, lines)
  {
    var p := START;
    for i := 0 to |lines|
      invariant ParseLines(START, scope, lines[..i]) == Some(p)
    {
      NextLine(START, scope, lines, i);
      r := ReadLine(p, scope, lines[i]);
      if r.None? {
        FailsEarly(START, scope, lines, i + 1);
        return;
      }
      p := r.value;
    }
    assert lines[..|lines|] == lines;
    return Some(p);
  }

  lemma {:induction false} NextLine(p: Parser, scope: Scope, lines: seq<string>, i: nat)
    requires i < |lines| && ParseLines(p, scope, lines[..i]).Some?
    ensures ParseLines(p, scope, lines[..i+1]) == ParseLine(ParseLines(p, scope, lines[..i]).value, scope, lines[i])
  {
    assert lines[..i+1][..i] == lines[..i];
  }

  lemma {:induction false} MapAllNext<A, B>(f: A -> Option<B>, xs: seq<A>, i: nat)
    requires i < |xs| && MapAll(f, xs[..i]).Some?
    ensures MapAll(f, xs[..i+1]) == if f(xs[i]).None? then None else Some(MapAll(f, xs[..i]).value + [f(xs[i]).value])
  {
    assert xs[..i+1][..i] == xs[..i];
  }

  lemma {:induction false} MapAllFails<A, B>(f: A -> Option<B>, xs: seq<A>, n: nat)
    requires n <= |xs| && MapAll(f, xs[..n]).None?
    ensures MapAll(f, xs).None?
  {
    MapAllAt(f, xs[..n], xs[n..]);
    assert xs == xs[..n] + xs[n..];
  }

  method SplitPath(g: Gpo) returns (e: Option<Entry>)
    ensures e == ToEntry(g)
  {
    var parts := PathParts(g.path);
    if |parts| < 4 || parts[0] != "" || parts[1] != "" {
      return None;
    }
    return Some(Entry(g.name, parts[2] + "/" + parts[3], Join(parts[4..], "\\")));
  }

  method ToProto(gs: seq<Gpo>) returns (r: Option<seq<Entry>>)
    ensures r == MapAll(ToEntry, gs)
  {
    var entries := [];
    for i := 0 to |gs|
      invariant MapAll(ToEntry, gs[..i]) == Some(entries)
    {
      MapAllNext(ToEntry, gs, i);
      var e := SplitPath(gs[i]);
      if e.None? {
        MapAllFails(ToEntry, gs, i + 1);
        return None;
      }
      entries := entries + [e.value];
    }
    assert gs[..|gs|] == gs;
    return Some(entries);
  }

  method ParseGpoListCommand(text: string, scope: Scope) returns (r: Option<seq<Entry>>)
    ensures r == ParseGpoList(text, scope)
  {
    var p := ReadLines(Lines(text), scope);
    if p.None? {
      return None;
    }
    var list := PushGpo(p.value.current, scope, p.value.list);
    if !p.value.found {
      return None;
    }
    r := ToProto(list);
  }
}
