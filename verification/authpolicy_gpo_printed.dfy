/**
 The blocks that the stub 'net ads gpo list' prints, and the proof that the parser reads from any
 concatenation of them exactly the objects that apply to the scope.
 */
module AuthpolicyGpoPrinted {
  import opened Common
  import opened AuthpolicyText
  import opened AuthpolicyGpo

  // The block that always comes first, or one made by PrintGpo.
  datatype Block = Local | Remote(guid: string, versionUser: nat, versionMachine: nat, flags: nat)

  // A line of a block: the key, a colon, spaces and the value.
  datatype Field = Field(key: string, spaces: string, value: string)

  function Rendered(f: Field): string { f.key + ":" + f.spaces + f.value }

  // %u (0x%04x)
  function VersionText(v: nat): string { Digits(v, 10) + " (0x" + ZeroPadded(Digits(v, 16), 4) + ")" }

  // The line that shows both versions in one number, which the parser does not read.
  function BothVersions(user: nat, machine: nat): string
    requires user < UINT_LIMIT && machine < UINT_LIMIT
  {
    Digits((((user as bv32) << 16) | (machine as bv32)) as nat, 10)
    + " (0x" + ZeroPadded(Digits(user, 16), 4) + ZeroPadded(Digits(machine, 16), 4) + ")"
  }

  // Where the policy files of an object are.
  function PathSteps(guid: string): seq<string> { ["", "", "realm.com", "SysVol", "realm.com", "Policies", guid] }

  function PolicyPath(guid: string): string { Join(PathSteps(guid), "\\") }

  // A file name: not empty, no space at its ends, no newline and no slash of either kind.
  predicate GoodGuid(guid: string) { IsLine(guid) && '\\' !in guid && '/' !in guid }

  predicate GoodBlock(b: Block) {
    b.Remote? ==> GoodGuid(b.guid) && b.versionUser < UINT_LIMIT && b.versionMachine < UINT_LIMIT && b.flags < GPFLAG_COUNT
  }

  const LOCAL_FIELDS: seq<Field> := [
    Field("name", "   ", "Local Policy"),
    Field("displayname", "  ", "Local Policy"),
    Field("version", "  ", "0 (0x00000000)"),
    Field("version_user", "  ", VersionText(0)),
    Field("version_machine", " ", VersionText(0)),
    Field("filesyspath", "  ", "(null)"),
    Field("dspath", "  ", "(null)"),
    Field("options", "  ", "0 GPFLAGS_ALL_ENABLED"),
    Field("link", "   ", "(null)"),
    Field("link_type", "  ", "5 machine_extensions: (null)"),
    Field("user_extensions", " ", "(null)")]

  function RemoteFields(b: Block): seq<Field>
    requires b.Remote? && GoodBlock(b)
  {
    [ Field("name", "   ", b.guid),
      Field("displayname", "  ", "test-user-policy"),
      Field("version", "  ", BothVersions(b.versionUser, b.versionMachine)),
      Field("version_user", "  ", VersionText(b.versionUser)),
      Field("version_machine", " ", VersionText(b.versionMachine)),
      Field("filesyspath", "  ", PolicyPath(b.guid)),
      Field("dspath", "  ", "cn=" + b.guid + ",cn=policies,cn=system,DC=chrome,DC=lan"),
      Field("options", "  ", GPFLAGS[b.flags]),
      Field("link", "   ", "OU=test-ou,DC=chrome,DC=lan"),
      Field("link_type", "  ", "4 GP_LINK_OU"),
      Field("machine_extensions", " ", "(null)"),
      Field("user_extensions", " ", "[{D02B1F73-3407-48AE-BA88-E8213C6761F1}]") ]
  }

  function Fields(b: Block): seq<Field>
    requires GoodBlock(b)
  {
    match b case Local => LOCAL_FIELDS case Remote(_, _, _, _) => RemoteFields(b)
  }

  function RenderedAll(fs: seq<Field>): (ls: seq<string>)
    ensures |ls| == |fs| && forall i :: 0 <= i < |fs| ==> ls[i] == Rendered(fs[i])
  {
    if fs == [] then [] else [Rendered(fs[0])] + RenderedAll(fs[1..])
  }

  function FieldLines(fs: seq<Field>): seq<string> { [SEPARATOR] + RenderedAll(fs) }

  function TextOf(fs: seq<Field>): string { Written(FieldLines(fs)) }

  function TextOfAll(fss: seq<seq<Field>>): string {
    if fss == [] then "" else TextOfAll(fss[..|fss|-1]) + TextOf(fss[|fss|-1])
  }

  predicate AllGood(bs: seq<Block>) { forall i :: 0 <= i < |bs| ==> GoodBlock(bs[i]) }

  function FieldsOfAll(bs: seq<Block>): (fss: seq<seq<Field>>)
    requires AllGood(bs)
    ensures |fss| == |bs| && forall i :: 0 <= i < |bs| ==> fss[i] == Fields(bs[i])
  {
    seq(|bs|, i requires 0 <= i < |bs| => Fields(bs[i]))
  }

  // What the stub prints for a list of objects.
  function PrintAll(bs: seq<Block>): string
    requires AllGood(bs)
  {
    TextOfAll(FieldsOfAll(bs))
  }

  // --- what should come out ---

  predicate Selected(b: Block, scope: Scope) {
    b.Remote? &&
    match scope
    case User => b.versionUser != 0 && b.flags % 2 == 0
    case Machine => b.versionMachine != 0 && b.flags / 2 % 2 == 0
  }

  function Expected(bs: seq<Block>, scope: Scope): seq<Entry> {
    if bs == [] then []
    else
      var b := bs[|bs|-1];
      Expected(bs[..|bs|-1], scope) +
      (if Selected(b, scope) then [Entry(b.guid, "realm.com/SysVol", "realm.com\\Policies\\" + b.guid)] else [])
  }

  // --- one line ---

  // The key has no colon and the value is trimmed, so that the line reads back.
  predicate GoodField(f: Field) { GoodKey(f.key) && GoodSpaces(f.spaces) && IsLine(f.value) }

  predicate GoodKey(key: string) { IsLine(key) && ':' !in key && key[0] != '-' }

  predicate GoodSpaces(spaces: string) { AllSpaces(spaces) && '\n' !in spaces }

  lemma {:induction false} ColonOf(key: string, rest: string)
    requires ':' !in key
    ensures FirstColon(key + ":" + rest) == |key|
    decreases |key|
  {
    var s := key + ":" + rest;
    if key != "" {
      ColonOf(key[1..], rest);
      assert s[1..] == key[1..] + ":" + rest;
      assert s[0] == key[0];
    }
  }

  lemma {:induction false} FieldIsLine(f: Field)
    requires GoodField(f)
    ensures IsLine(Rendered(f)) && !IsSeparator(Rendered(f))
  {
    var s := Rendered(f);
    assert s[0] == f.key[0] && s[|s|-1] == f.value[|f.value|-1];
    assert SEPARATOR[0] == '-';
  }

  lemma {:induction false} ParseField(p: Parser, scope: Scope, f: Field)
    requires GoodField(f)
    ensures ParseLine(p, scope, Rendered(f)) ==
            var g := SetField(p.current, f.key, f.value);
            if g.None? then None else Some(p.(current := g.value))
  {
    var s := Rendered(f);
    FieldIsLine(f);
    assert s == f.key + ":" + (f.spaces + f.value);
    ColonOf(f.key, f.spaces + f.value);
    assert s[..|f.key|] == f.key && s[|f.key|+1..] == f.spaces + f.value;
    TrimSpaces(f.spaces, f.value);
  }

  function SetFields(g: Gpo, fs: seq<Field>): Option<Gpo>
    decreases |fs|
  {
    if fs == [] then Some(g)
    else
      var h := SetField(g, fs[0].key, fs[0].value);
      if h.None? then None else SetFields(h.value, fs[1..])
  }

  predicate GoodFields(fs: seq<Field>) { forall i :: 0 <= i < |fs| ==> GoodField(fs[i]) }

  lemma {:induction false} ParseFields(p: Parser, scope: Scope, fs: seq<Field>)
    requires GoodFields(fs)
    ensures ParseLines(p, scope, RenderedAll(fs)) ==
            var g := SetFields(p.current, fs);
            if g.None? then None else Some(p.(current := g.value))
    decreases |fs|
  {
    if fs != [] {
      var line := Rendered(fs[0]);
      ParseLinesAt(p, scope, [line], RenderedAll(fs[1..]));
      OneLine(p, scope, line);
      ParseField(p, scope, fs[0]);
      var g := SetField(p.current, fs[0].key, fs[0].value);
      if g.Some? { ParseFields(p.(current := g.value), scope, fs[1..]); }
    }
  }

  // The fields of a block set one after the other, through the objects gs.
  lemma {:induction false} SetChain(fs: seq<Field>, gs: seq<Gpo>, n: nat)
    requires n <= |fs| && |gs| == |fs| + 1
    requires forall i :: 0 <= i < |fs| ==> SetField(gs[i], fs[i].key, fs[i].value) == Some(gs[i+1])
    ensures SetFields(gs[n], fs[n..]) == Some(gs[|fs|])
    decreases |fs| - n
  {
    if n < |fs| {
      SetChain(fs, gs, n + 1);
      assert fs[n..][0] == fs[n] && fs[n..][1..] == fs[n+1..];
    }
  }

  // --- blocks in general ---

  lemma SeparatorIsLine()
    ensures IsLine(SEPARATOR) && IsSeparator(SEPARATOR)
  {
  }

  lemma {:induction false} LinesOfText(fs: seq<Field>)
    requires GoodFields(fs)
    ensures Lines(TextOf(fs)) == FieldLines(fs)
  {
    var ls := FieldLines(fs);
    SeparatorIsLine();
    forall i | 0 <= i < |ls| ensures IsLine(ls[i]) { if i > 0 { FieldIsLine(fs[i-1]); } }
    LinesOfWritten(ls);
  }

  lemma {:induction false} GposOfFields(fs: seq<Field>, g: Gpo, scope: Scope)
    requires GoodFields(fs) && SetFields(CLEAR, fs) == Some(g)
    ensures Gpos(FieldLines(fs), scope) == Some(Pushed(g, scope))
  {
    SeparatorIsLine();
    var ls := FieldLines(fs);
    SeparatorFirst(START, scope, ls);
    assert ls[1..] == RenderedAll(fs);
    assert All(START, scope) == [];
    ParseFields(Parser(CLEAR, [], true), scope, fs);
    assert ParseLines(START, scope, ls) == Some(Parser(g, [], true));
    assert [] + Pushed(g, scope) == Pushed(g, scope);
  }

  lemma EmptyText()
    ensures Lines("") == []
  {
    assert [""][..0] == [];
  }

  // Text that ends in a newline: what follows it has its own lines.
  lemma {:induction false} LinesAfterNewline(w: string, rest: string)
    ensures Lines(w + "\n" + rest) == Lines(w + "\n") + Lines(rest)
  {
    LinesAt(w, rest);
    LinesAt(w, "");
    EmptyText();
    assert w + "\n" + "" == w + "\n";
  }

  lemma {:induction false} TextEnds(fss: seq<seq<Field>>) returns (w: string)
    requires fss != []
    ensures TextOfAll(fss) == w + "\n"
  {
    var ls := FieldLines(fss[|fss|-1]);
    w := TextOfAll(fss[..|fss|-1]) + (Written(ls[..|ls|-1]) + ls[|ls|-1]);
    assert TextOf(fss[|fss|-1]) == Written(ls[..|ls|-1]) + ls[|ls|-1] + "\n";
  }

  lemma {:induction false} LinesOfAll(fss: seq<seq<Field>>)
    requires fss != [] && GoodFields(fss[|fss|-1])
    ensures Lines(TextOfAll(fss)) == Lines(TextOfAll(fss[..|fss|-1])) + FieldLines(fss[|fss|-1])
  {
    var front, fs := fss[..|fss|-1], fss[|fss|-1];
    LinesOfText(fs);
    if front == [] {
      EmptyText();
      assert "" + TextOf(fs) == TextOf(fs);
    } else {
      var w := TextEnds(front);
      LinesAfterNewline(w, TextOf(fs));
    }
  }

  // --- values read back ---

  lemma {:induction false} PaddedHex(v: nat)
    requires v < UINT_LIMIT
    ensures var h := ZeroPadded(Digits(v, 16), 4); AllDigits(h, 16) && Value(h, 16) == v && 0 < |h| <= 8
  {
    ValueOfDigits(v, 16);
    ValueOfPadded(Digits(v, 16), 4, 16);
    UnsignedInHex(v);
  }

  /** A printed version is read back. */
  lemma {:induction false} VersionReadsBack(v: nat)
    requires v < UINT_LIMIT
    ensures ParseGpoVersion(VersionText(v)) == Some(v)
  {
    ValueOfDigits(v, 10);
    PaddedHex(v);
    VersionOfParts(Digits(v, 10), ZeroPadded(Digits(v, 16), 4), v);
  }

  lemma {:induction false} VersionOfParts(d: string, h: string, v: nat)
    requires d != "" && AllDigits(d, 10) && Value(d, 10) == v < UINT_LIMIT
    requires 0 < |h| <= 8 && AllDigits(h, 16) && Value(h, 16) == v
    ensures ParseGpoVersion(d + " (0x" + h + ")") == Some(v)
  {
    var s := d + " (0x" + h + ")";
    var rest := " (0x" + h + ")";
    assert s == d + rest;
    ScanDigits(d, rest, 10, |s|);
    HexConfirms(h, v);
  }

  lemma {:induction false} HexConfirms(h: string, v: nat)
    requires 0 < |h| <= 8 && AllDigits(h, 16) && Value(h, 16) == v < UINT_LIMIT
    ensures Confirms(" (0x" + h + ")", v)
  {
    ScanDigits(h, ")", 16, 8);
    TailOf(h);
  }

  lemma {:induction false} TailOf(h: string)
    ensures var tail := TrimLeft(" (0x" + h + ")");
            |tail| >= 3 && tail[0] == '(' && tail[1] == '0' && tail[2] == 'x' && tail[3..] == h + ")"
  {
    var s := " (0x" + h + ")";
    var tail := "(0x" + h + ")";
    assert s == " " + tail;
    assert tail[|tail|-1] == ')' && tail[3..] == h + ")";
    TrimSpaces(" ", tail);
  }

  lemma {:induction false} VersionIsLine(v: nat)
    ensures IsLine(VersionText(v))
  {
    ValueOfDigits(v, 10);
    ValueOfDigits(v, 16);
    ValueOfPadded(Digits(v, 16), 4, 16);
    var s := VersionText(v);
    NotSpace(s[0], 10);
    assert s[|s|-1] == ')';
    NoNewline(Digits(v, 10), 10);
    NoNewline(ZeroPadded(Digits(v, 16), 4), 16);
  }

  lemma {:induction false} NoNewline(s: string, base: nat)
    requires AllDigits(s, base) && base <= 16
    ensures '\n' !in s
  {
    forall i | 0 <= i < |s| ensures s[i] != '\n' { NotSpace(s[i], base); }
  }

  lemma {:induction false} BothVersionsIsLine(user: nat, machine: nat)
    requires user < UINT_LIMIT && machine < UINT_LIMIT
    ensures IsLine(BothVersions(user, machine))
  {
    var n: nat := (((user as bv32) << 16) | (machine as bv32)) as nat;
    BothTextIsLine(n, user, machine);
  }

  lemma {:induction false} BothTextIsLine(n: nat, user: nat, machine: nat)
    ensures IsLine(Digits(n, 10) + " (0x" + ZeroPadded(Digits(user, 16), 4) + ZeroPadded(Digits(machine, 16), 4) + ")")
  {
    ValueOfDigits(n, 10);
    ValueOfDigits(user, 16);
    ValueOfPadded(Digits(user, 16), 4, 16);
    ValueOfDigits(machine, 16);
    ValueOfPadded(Digits(machine, 16), 4, 16);
    var s := Digits(n, 10) + " (0x" + ZeroPadded(Digits(user, 16), 4) + ZeroPadded(Digits(machine, 16), 4) + ")";
    NotSpace(s[0], 10);
    assert s[|s|-1] == ')';
    NoNewline(Digits(n, 10), 10);
    NoNewline(ZeroPadded(Digits(user, 16), 4), 16);
    NoNewline(ZeroPadded(Digits(machine, 16), 4), 16);
  }

  lemma {:induction false} FlagsReadBack(flags: nat)
    requires flags < GPFLAG_COUNT
    ensures ParseGpFlags(GPFLAGS[flags]) == Some(flags)
  {
    assert GPFLAGS[0][0] == '0' && GPFLAGS[1][0] == '1' && GPFLAGS[2][0] == '2' && GPFLAGS[3][0] == '3';
    assert FlagsFrom(GPFLAGS[flags], flags) == Some(flags);
  }

  lemma {:induction false} FlagsIsLine(flags: nat)
    requires flags < GPFLAG_COUNT
    ensures IsLine(GPFLAGS[flags])
  {
  }

  // --- paths ---

  lemma {:induction false} JoinNext(ps: seq<string>, p: string, sep: string)
    requires |ps| > 0
    ensures Join(ps + [p], sep) == Join(ps, sep) + sep + p
  {
    assert (ps + [p])[..|ps|] == ps;
  }

  lemma {:induction false} PathText(guid: string)
    ensures PolicyPath(guid) == "\\" + "\\" + "realm.com" + "\\" + "SysVol" + "\\" + "realm.com" + "\\" + "Policies" + "\\" + guid
  {
    var ps := PathSteps(guid);
    JoinNext(ps[..1], "", "\\");
    JoinNext(ps[..2], "realm.com", "\\");
    JoinNext(ps[..3], "SysVol", "\\");
    JoinNext(ps[..4], "realm.com", "\\");
    JoinNext(ps[..5], "Policies", "\\");
    JoinNext(ps[..6], guid, "\\");
    assert ps[..1] + [""] == ps[..2] && ps[..2] + ["realm.com"] == ps[..3] && ps[..3] + ["SysVol"] == ps[..4];
    assert ps[..4] + ["realm.com"] == ps[..5] && ps[..5] + ["Policies"] == ps[..6] && ps[..6] + [guid] == ps;
    assert Join(ps[..1], "\\") == "" && "" + "\\" + "" == "\\";
  }

  lemma {:induction false} PathIsLine(guid: string)
    requires GoodGuid(guid)
    ensures IsLine(PolicyPath(guid))
  {
    PathText(guid);
    var s := PolicyPath(guid);
    assert s[0] == '\\' && s[|s|-1] == guid[|guid|-1];
  }

  lemma {:induction false} TrimAllTrimmed(ps: seq<string>)
    requires forall i :: 0 <= i < |ps| ==> ps[i] == "" || Trimmed(ps[i])
    ensures TrimAll(ps) == ps
    decreases |ps|
  {
    if ps != [] {
      TrimAllTrimmed(ps[..|ps|-1]);
      assert ps == ps[..|ps|-1] + [ps[|ps|-1]];
    }
  }

  lemma {:induction false} PathSplits(guid: string)
    requires GoodGuid(guid)
    ensures PathParts(PolicyPath(guid)) == PathSteps(guid)
  {
    var ps := PathSteps(guid);
    forall i, j | 0 <= i < |ps| && 0 <= j < |ps[i]| ensures ps[i][j] !in SLASHES {
      if i == 6 { assert guid[j] in guid; } else { StepIsPlain(guid, i); assert ps[i][j] in ps[i]; }
    }
    SplitJoin(ps, '\\', SLASHES);
    forall i | 0 <= i < |ps| ensures ps[i] == "" || Trimmed(ps[i]) { if i < 6 { StepIsPlain(guid, i); } }
    TrimAllTrimmed(ps);
    PathIsLine(guid);
  }

  lemma {:induction false} StepIsPlain(guid: string, i: nat)
    requires i < 6
    ensures var p := PathSteps(guid)[i]; '\\' !in p && '/' !in p && (p == "" || Trimmed(p))
  {
  }

  /** The printed path is split into the server's share and the directory, and nothing is lost. */
  lemma {:induction false} PathReadsBack(name: string, guid: string, user: nat, machine: nat, flags: nat)
    requires GoodGuid(guid)
    ensures ToEntry(Gpo(name, PolicyPath(guid), user, machine, flags)) ==
            Some(Entry(name, "realm.com/SysVol", "realm.com\\Policies\\" + guid))
  {
    PathSplits(guid);
    var ps := PathSteps(guid);
    JoinNext(ps[4..5], "Policies", "\\");
    JoinNext(ps[4..6], guid, "\\");
    assert ps[4..5] + ["Policies"] == ps[4..6] && ps[4..6] + [guid] == ps[4..];
    assert Join(ps[4..5], "\\") == "realm.com";
    assert "realm.com" + "/" + "SysVol" == "realm.com/SysVol";
    assert "realm.com" + "\\" + "Policies" + "\\" == "realm.com\\Policies\\";
  }

  // --- one block ---

  // The object a block describes.
  function GpoOf(b: Block): Gpo {
    match b
    case Local => Gpo("Local Policy", "(null)", 0, 0, 0)
    case Remote(guid, user, machine, flags) => Gpo(guid, PolicyPath(guid), user, machine, flags)
  }

  // The object after n fields.
  function Stage(g: Gpo, n: nat): Gpo {
    Gpo(if n >= 1 then g.name else "",
        if n >= 6 then g.path else "",
        if n >= 4 then g.versionUser else 0,
        if n >= 5 then g.versionMachine else 0,
        if n >= 8 then g.flags else GPFLAG_INVALID)
  }

  lemma {:induction false} Ignored(g: Gpo, key: string, value: string)
    requires key in {"displayname", "version", "dspath", "link", "link_type", "machine_extensions", "user_extensions"}
    ensures SetField(g, key, value) == Some(g)
  {
    assert "displayname"[0] != "filesyspath"[0] && "version"[0] != "options"[0] && "link"[0] != "name"[0];
    assert "user_extensions"[0] != "version_machine"[0];
  }

  lemma {:induction false} UserVersionIsSet(g: Gpo, v: nat)
    requires v < UINT_LIMIT && g.versionUser == 0
    ensures SetField(g, "version_user", VersionText(v)) == Some(g.(versionUser := v))
  {
    VersionReadsBack(v);
  }

  lemma {:induction false} MachineVersionIsSet(g: Gpo, v: nat)
    requires v < UINT_LIMIT && g.versionMachine == 0
    ensures SetField(g, "version_machine", VersionText(v)) == Some(g.(versionMachine := v))
  {
    VersionReadsBack(v);
  }

  lemma {:induction false} OptionsAreSet(g: Gpo, flags: nat)
    requires flags < GPFLAG_COUNT && g.flags == GPFLAG_INVALID
    ensures SetField(g, "options", GPFLAGS[flags]) == Some(g.(flags := flags))
  {
    FlagsReadBack(flags);
    assert "options"[0] != "name"[0];
  }

  lemma {:induction false} NamesAreSet(g: Gpo, value: string)
    ensures g.name == "" ==> SetField(g, "name", value) == Some(g.(name := value))
    ensures g.path == "" ==> SetField(g, "filesyspath", value) == Some(g.(path := value))
  {
  }

  lemma {:induction false} FieldIsSet(b: Block, i: nat)
    requires GoodBlock(b) && i < |Fields(b)|
    ensures var f := Fields(b)[i];
            SetField(Stage(GpoOf(b), i), f.key, f.value) == Some(Stage(GpoOf(b), i + 1))
  {
    var g, f := Stage(GpoOf(b), i), Fields(b)[i];
    if i == 0 || i == 5 { NamesAreSet(g, f.value); }
    else if i == 3 { UserVersionIsSet(g, GpoOf(b).versionUser); }
    else if i == 4 { MachineVersionIsSet(g, GpoOf(b).versionMachine); }
    else if i == 7 { OptionsAreSet(g, GpoOf(b).flags); }
    else { Ignored(g, f.key, f.value); }
  }

  lemma {:induction false} BlockIsSet(b: Block)
    requires GoodBlock(b)
    ensures SetFields(CLEAR, Fields(b)) == Some(GpoOf(b))
  {
    var fs := Fields(b);
    var gs := seq(|fs| + 1, i requires 0 <= i <= |fs| => Stage(GpoOf(b), i));
    forall i | 0 <= i < |fs| ensures SetField(gs[i], fs[i].key, fs[i].value) == Some(gs[i+1]) { FieldIsSet(b, i); }
    SetChain(fs, gs, 0);
    assert fs[0..] == fs;
  }

  lemma {:induction false} KeyIsGood(key: string)
    requires key in {"name", "version_user", "version_machine", "filesyspath", "options"}
    ensures GoodKey(key)
  {
  }

  lemma {:induction false} OtherKeyIsGood(key: string)
    requires key in {"displayname", "version", "dspath", "link", "link_type", "machine_extensions", "user_extensions"}
    ensures GoodKey(key)
  {
  }

  lemma {:induction false} LocalValueIsLine(value: string)
    requires value in {"Local Policy", "0 (0x00000000)", "(null)", "0 GPFLAGS_ALL_ENABLED", "5 machine_extensions: (null)"}
    ensures IsLine(value)
  {
  }

  lemma {:induction false} RemoteValueIsLine(value: string)
    requires value in {"test-user-policy", "OU=test-ou,DC=chrome,DC=lan", "4 GP_LINK_OU", "(null)"}
    ensures IsLine(value)
  {
  }

  lemma ExtensionsIsLine()
    ensures IsLine("[{D02B1F73-3407-48AE-BA88-E8213C6761F1}]")
  {
  }

  lemma {:induction false} DspathIsLine(guid: string)
    requires IsLine(guid)
    ensures IsLine("cn=" + guid + ",cn=policies,cn=system,DC=chrome,DC=lan")
  {
    var tail := ",cn=policies,cn=system,DC=chrome,DC=lan";
    var s := "cn=" + guid + tail;
    assert s[|s|-1] == tail[|tail|-1];
  }

  lemma {:induction false} SpacesAreGood(spaces: string)
    requires spaces in {" ", "  ", "   "}
    ensures GoodSpaces(spaces)
  {
  }

  lemma {:induction false} LocalFieldIsGood(i: nat)
    requires i < |LOCAL_FIELDS|
    ensures GoodField(LOCAL_FIELDS[i])
  {
    if i in {0, 3, 4, 5, 7} { KeyIsGood(LOCAL_FIELDS[i].key); } else { OtherKeyIsGood(LOCAL_FIELDS[i].key); }
    SpacesAreGood(LOCAL_FIELDS[i].spaces);
    if i == 3 || i == 4 { VersionIsLine(0); } else { LocalValueIsLine(LOCAL_FIELDS[i].value); }
  }

  lemma {:induction false} RemoteKeyIsGood(b: Block, i: nat)
    requires b.Remote? && GoodBlock(b) && i < |RemoteFields(b)|
    ensures GoodKey(RemoteFields(b)[i].key) && GoodSpaces(RemoteFields(b)[i].spaces)
  {
    if i in {0, 3, 4, 5, 7} { KeyIsGood(RemoteFields(b)[i].key); } else { OtherKeyIsGood(RemoteFields(b)[i].key); }
    SpacesAreGood(RemoteFields(b)[i].spaces);
  }

  lemma {:induction false} RemoteValueIsGood(b: Block, i: nat)
    requires b.Remote? && GoodBlock(b) && i < |RemoteFields(b)|
    ensures IsLine(RemoteFields(b)[i].value)
  {
    if i == 0 {}
    else if i == 2 { BothVersionsIsLine(b.versionUser, b.versionMachine); }
    else if i == 3 { VersionIsLine(b.versionUser); }
    else if i == 4 { VersionIsLine(b.versionMachine); }
    else if i == 5 { PathIsLine(b.guid); }
    else if i == 6 { DspathIsLine(b.guid); }
    else if i == 7 { FlagsIsLine(b.flags); }
    else if i == 11 { ExtensionsIsLine(); }
    else { RemoteValueIsLine(RemoteFields(b)[i].value); }
  }

  lemma {:induction false} FieldsAreGood(b: Block)
    requires GoodBlock(b)
    ensures GoodFields(Fields(b))
  {
    forall i | 0 <= i < |Fields(b)| ensures GoodField(Fields(b)[i]) {
      if b.Local? { LocalFieldIsGood(i); } else { RemoteKeyIsGood(b, i); RemoteValueIsGood(b, i); }
    }
  }

  // --- any number of blocks ---

  function PushedAll(gs: seq<Gpo>, scope: Scope): seq<Gpo> {
    if gs == [] then [] else PushedAll(gs[..|gs|-1], scope) + Pushed(gs[|gs|-1], scope)
  }

  function Objects(bs: seq<Block>): (gs: seq<Gpo>)
    ensures |gs| == |bs| && forall i :: 0 <= i < |bs| ==> gs[i] == GpoOf(bs[i])
  {
    if bs == [] then [] else Objects(bs[..|bs|-1]) + [GpoOf(bs[|bs|-1])]
  }

  predicate Describes(fs: seq<Field>, g: Gpo) { GoodFields(fs) && SetFields(CLEAR, fs) == Some(g) }

  lemma {:induction false} BlockDescribes(b: Block)
    requires GoodBlock(b)
    ensures Describes(Fields(b), GpoOf(b))
  {
    FieldsAreGood(b);
    BlockIsSet(b);
  }

  lemma {:induction false} GposOfAll(fss: seq<seq<Field>>, gs: seq<Gpo>, scope: Scope)
    requires |fss| == |gs| && forall i :: 0 <= i < |gs| ==> Describes(fss[i], gs[i])
    ensures Gpos(Lines(TextOfAll(fss)), scope) == Some(PushedAll(gs, scope))
    decreases |gs|
  {
    if gs == [] {
      NoGpos(scope);
    } else {
      var n := |gs| - 1;
      GposOfAll(fss[..n], gs[..n], scope);
      FrontAndLast(fss);
      GposOfNext(fss[..n], fss[n], gs[n], scope);
    }
  }

  lemma {:induction false} FrontAndLast<T>(s: seq<T>)
    requires s != []
    ensures s == s[..|s|-1] + [s[|s|-1]]
  {
  }

  lemma {:induction false} NoGpos(scope: Scope)
    ensures Gpos(Lines(TextOfAll([])), scope) == Some([])
  {
    EmptyText();
    assert All(START, scope) == [];
  }

  lemma {:induction false} GposOfNext(fss: seq<seq<Field>>, fs: seq<Field>, g: Gpo, scope: Scope)
    requires Describes(fs, g)
    ensures Gpos(Lines(TextOfAll(fss + [fs])), scope) == Both(Gpos(Lines(TextOfAll(fss)), scope), Some(Pushed(g, scope)))
  {
    assert (fss + [fs])[..|fss|] == fss;
    LinesOfAll(fss + [fs]);
    SeparatorIsLine();
    GposAt(Lines(TextOfAll(fss)), FieldLines(fs), scope);
    GposOfFields(fs, g, scope);
  }

  lemma {:induction false} OneEntry(g: Gpo)
    ensures ToEntries([g]) == if ToEntry(g).None? then None else Some([ToEntry(g).value])
  {
    MapOne(ToEntry, g);
  }

  lemma {:induction false} MapOne<A, B>(f: A -> Option<B>, x: A)
    ensures MapAll(f, [x]) == if f(x).None? then None else Some([f(x).value])
  {
    assert [x][..0] == [];
    assert MapAll(f, [x][..0]) == Some([]);
    if f(x).Some? { assert [] + [f(x).value] == [f(x).value]; }
  }

  lemma {:induction false} PushedEntry(b: Block, scope: Scope)
    requires GoodBlock(b)
    ensures ToEntries(Pushed(GpoOf(b), scope)) ==
            Some(if Selected(b, scope) then [Entry(b.guid, "realm.com/SysVol", "realm.com\\Policies\\" + b.guid)] else [])
  {
    var g := GpoOf(b);
    if b.Remote? {
      PathIsLine(b.guid);
      PathReadsBack(b.guid, b.guid, b.versionUser, b.versionMachine, b.flags);
      assert Selected(b, scope) <==> Applies(g, scope);
      OneEntry(g);
    }
  }

  lemma {:induction false} ExpectedEntries(bs: seq<Block>, scope: Scope)
    requires AllGood(bs)
    ensures ToEntries(PushedAll(Objects(bs), scope)) == Some(Expected(bs, scope))
    decreases |bs|
  {
    if bs != [] {
      var front, b := bs[..|bs|-1], bs[|bs|-1];
      ExpectedEntries(front, scope);
      PushedEntry(b, scope);
      assert Objects(bs)[..|bs|-1] == Objects(front);
      MapAllAt(ToEntry, PushedAll(Objects(front), scope), Pushed(GpoOf(b), scope));
    }
  }

  lemma {:induction false} SeparatorInText(fss: seq<seq<Field>>)
    requires fss != [] && GoodFields(fss[|fss|-1])
    ensures HasSeparator(TextOfAll(fss))
  {
    LinesOfAll(fss);
    SeparatorIsLine();
    var n := |Lines(TextOfAll(fss[..|fss|-1]))|;
    assert Lines(TextOfAll(fss))[n] == SEPARATOR;
  }

  /**
   Any non-empty concatenation of printed blocks parses, and yields in order exactly the objects whose
   version for the scope is not zero and whose disabled bit for the scope is clear.
   */
  lemma {:induction false} PrintedBlocksParse(bs: seq<Block>, scope: Scope)
    requires AllGood(bs) && bs != []
    ensures ParseGpoList(PrintAll(bs), scope) == Some(Expected(bs, scope))
  {
    forall i | 0 <= i < |bs| ensures Describes(FieldsOfAll(bs)[i], Objects(bs)[i]) { BlockDescribes(bs[i]); }
    GposOfAll(FieldsOfAll(bs), Objects(bs), scope);
    assert Describes(FieldsOfAll(bs)[|bs|-1], Objects(bs)[|bs|-1]);
    SeparatorInText(FieldsOfAll(bs));
    FoundEverywhere(PrintAll(bs), scope);
    ExpectedEntries(bs, scope);
  }

  /** No output at all is a failure, not an empty list. */
  lemma {:induction false} NothingPrintedFails(scope: Scope)
    ensures ParseGpoList(PrintAll([]), scope).None?
  {
    EmptyText();
    NoSeparatorFails("", scope);
  }
}
