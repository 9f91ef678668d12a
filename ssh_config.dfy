/**
 * The SSH configuration merge engine: strip a previously generated block
 * out of the user's file, render a fresh block from the machine directory,
 * and write the two back after making a backup.
 *
 * The existing file is read as the lines a line scanner yields; the output
 * is a string in which every line is followed by "\n".
 */
module SshConfigFile {
  import opened Text
  import opened Api
  import opened Grouping
  import opened Policy

  const Hashes: string := "#####"

  /** The marker lines, compared byte for byte with each whole scanner line. */
  const StartToken: string := Hashes + " START GENERATED LINODE-SSH-CONFIG " + Hashes
  const EndToken: string := Hashes + " END GENERATED LINODE-SSH-CONFIG " + Hashes

  // ---------------------------------------------------------------------
  // usersConfig: the two-state block stripper
  // ---------------------------------------------------------------------

  /** The lines kept so far and whether the scan is inside a generated block. */
  datatype Scan = Scan(kept: seq<string>, inside: bool)

  /**
   * The scan of `lines` starting with the flag `inside`. Per line: a start
   * marker seen outside a block enters one; a line is kept when the scan is
   * not inside a block after that test; an end marker inside a block
   * leaves it, after the line has been dropped.
   */
  function Run(inside: bool, lines: seq<string>): (r: Scan)
    ensures forall l :: l in r.kept ==> l in lines && l != StartToken
    ensures |r.kept| <= |lines|
  {
    if |lines| == 0 then Scan([], inside)
    else
      var before := Run(inside, lines[..|lines| - 1]);
      var line := lines[|lines| - 1];
      var entered := before.inside || line == StartToken;
      Scan(before.kept + (if entered then [] else [line]), entered && line != EndToken)
  }

  /** The user's own lines: what the stripper keeps from a whole file. */
  function UserLines(lines: seq<string>): seq<string> {
    Run(false, lines).kept
  }

  /** Scanning `a + b` is scanning `a`, then `b` from the flag `a` left. */
  lemma {:induction false} RunAppend(inside: bool, a: seq<string>, b: seq<string>)
    ensures Run(inside, a + b)
         == Scan(Run(inside, a).kept + Run(Run(inside, a).inside, b).kept, Run(Run(inside, a).inside, b).inside)
  {
    if |b| == 0 {
      assert a + b == a;
    } else {
      var init := b[..|b| - 1];
      assert (a + b)[..|a + b| - 1] == a + init;
      RunAppend(inside, a, init);
    }
  }

  /**
   * A file with no start marker comes back line for line; an end marker
   * outside a block is kept like any other line.
   */
  lemma {:induction false} NoStartKeepsAll(lines: seq<string>)
    requires StartToken !in lines
    ensures Run(false, lines) == Scan(lines, false)
  {
    if |lines| > 0 {
      var init := lines[..|lines| - 1];
      assert lines == init + [lines[|lines| - 1]];
      NoStartKeepsAll(init);
    }
  }

  /** Inside a block, every line up to the first end marker is dropped. */
  lemma {:induction false} InsideDropsAll(lines: seq<string>)
    requires EndToken !in lines
    ensures Run(true, lines) == Scan([], true)
  {
    if |lines| > 0 {
      var init := lines[..|lines| - 1];
      assert lines == init + [lines[|lines| - 1]];
      InsideDropsAll(init);
    }
  }

  /** A whole block, from its start marker to its end marker, leaves nothing behind. */
  lemma BlockDropped(inner: seq<string>)
    requires EndToken !in inner
    ensures Run(false, [StartToken] + inner + [EndToken]) == Scan([], false)
  {
    RunAppend(false, [StartToken], inner);
    InsideDropsAll(inner);
    RunAppend(false, [StartToken] + inner, [EndToken]);
  }

  /**
   * A generated block in the middle of a file is removed, marker lines
   * included, and the lines around it are kept.
   */
  lemma StripBlock(before: seq<string>, inner: seq<string>, after: seq<string>)
    requires StartToken !in before
    requires EndToken !in inner
    ensures UserLines(before + [StartToken] + inner + [EndToken] + after) == before + UserLines(after)
  {
    var block := [StartToken] + inner + [EndToken];
    assert before + [StartToken] + inner + [EndToken] + after == before + (block + after);
    NoStartKeepsAll(before);
    RunAppend(false, before, block + after);
    BlockDropped(inner);
    RunAppend(false, block, after);
    var tail := Run(false, block + after);
    assert tail == Run(false, after);
    assert Run(false, before + (block + after)).kept == before + tail.kept;
  }

  /** A start marker with no end marker after it drops the rest of the file. */
  lemma OrphanStart(before: seq<string>, rest: seq<string>)
    requires StartToken !in before
    requires EndToken !in rest
    ensures UserLines(before + [StartToken] + rest) == before
  {
    NoStartKeepsAll(before);
    RunAppend(false, before + [StartToken], rest);
    RunAppend(false, before, [StartToken]);
    InsideDropsAll(rest);
  }

  /** Inside a block, a second start marker changes nothing. */
  lemma StartInsideBlock(inner: seq<string>, rest: seq<string>)
    requires EndToken !in inner
    ensures Run(true, inner + [StartToken] + rest) == Run(true, inner + rest)
  {
    InsideDropsAll(inner);
    RunAppend(true, inner + [StartToken], rest);
    RunAppend(true, inner, [StartToken]);
    RunAppend(true, inner, rest);
  }

  /** Stripping what has already been stripped changes nothing. */
  lemma UserLinesIdempotent(lines: seq<string>)
    ensures UserLines(UserLines(lines)) == UserLines(lines)
  {
    NoStartKeepsAll(UserLines(lines));
  }

  /** The stripper's loop: each kept line is written followed by "\n". */
  method StripGenerated(lines: seq<string>) returns (content: string)
    ensures content == Join(UserLines(lines))
  {
    content := "";
    var inside := false;
    ghost var kept: seq<string> := [];
    for i := 0 to |lines|
      invariant Run(false, lines[..i]) == Scan(kept, inside)
      invariant content == Join(kept)
    {
      assert lines[..i + 1][..i] == lines[..i];
      var line := lines[i];
      if !inside && line == StartToken {
        inside := true;
      }
      if !inside {
        JoinAppend(kept, [line]);
        content := content + line + "\n";
        kept := kept + [line];
      }
      if inside && line == EndToken {
        inside := false;
      }
    }
    assert lines[..|lines|] == lines;
  }

  // ---------------------------------------------------------------------
  // generatedConfig: the template and the stanzas
  // ---------------------------------------------------------------------

  /** The indentation of a directive line, and the whole of a stanza's last line. */
  const Indent: string := "        "

  /** The value of the `#` directive: group, id and memory of the linode. */
  function Annotation(l: Linode): (note: string)
    ensures StartsWith(note, l.displayGroup + " | Linode ID ")
    ensures SingleLine(l.displayGroup) ==> SingleLine(note)
  {
    l.displayGroup + " | Linode ID " + Decimal(l.id) + " | " + Decimal(l.ram) + "m Ram"
  }

  /** The directives of one linode's stanza, keyed by directive name. */
  function KeyVals(l: Linode, c: Configuration): (kv: map<string, string>)
    ensures forall k :: k in kv <==> k == "#" || k == "Hostname" || (k == "IdentityFile" && c.identityFile != "") || (k == "User" && c.user != "")
  {
    var base := map["#" := Annotation(l), "Hostname" := PublicIp(l)];
    var withUser := if c.user != "" then base["User" := c.user] else base;
    if c.identityFile != "" then withUser["IdentityFile" := c.identityFile] else withUser
  }

  /** Every directive name a stanza can hold, in Go's string order. */
  const DirectiveOrder: seq<string> := ["#", "Hostname", "IdentityFile", "User"]

  predicate Increasing(names: seq<string>) {
    forall i, j :: 0 <= i < j < |names| ==> Less(names[i], names[j])
  }

  predicate KeysIncreasing(ds: seq<(string, string)>) {
    forall i, j :: 0 <= i < j < |ds| ==> Less(ds[i].0, ds[j].0)
  }

  lemma DirectiveOrderIncreasing()
    ensures Increasing(DirectiveOrder)
  {
    assert Less("#", "Hostname") && Less("#", "IdentityFile") && Less("#", "User");
    assert Less("Hostname", "IdentityFile") && Less("Hostname", "User");
    assert Less("IdentityFile", "User");
  }

  /** The entries of `kv` whose names are listed in `names`, in the order of `names`. */
  function Pick(names: seq<string>, kv: map<string, string>): seq<(string, string)> {
    if |names| == 0 then []
    else Entry(kv, names[0]) + Pick(names[1..], kv)
  }

  /** The picked entries are exactly the map's entries whose name is listed. */
  lemma {:induction false} PickMembers(names: seq<string>, kv: map<string, string>)
    ensures forall d :: d in Pick(names, kv) <==> d.0 in names && d.0 in kv && d.1 == kv[d.0]
  {
    if |names| > 0 {
      PickMembers(names[1..], kv);
      assert names == [names[0]] + names[1..];
    }
  }

  lemma {:induction false} PickIncreasing(names: seq<string>, kv: map<string, string>)
    requires Increasing(names)
    ensures KeysIncreasing(Pick(names, kv))
  {
    if |names| > 0 {
      var rest := Pick(names[1..], kv);
      assert Increasing(names[1..]) by {
        forall i, j | 0 <= i < j < |names| - 1
          ensures Less(names[1..][i], names[1..][j])
        {
          assert names[1..][i] == names[i + 1] && names[1..][j] == names[j + 1];
        }
      }
      PickIncreasing(names[1..], kv);
      PickMembers(names[1..], kv);
      if names[0] in kv {
        forall j | 0 <= j < |rest|
          ensures Less(names[0], rest[j].0)
        {
          assert rest[j] in rest;
          var k :| 1 <= k < |names| && names[k] == rest[j].0;
        }
      }
    }
  }

  /** The directives in the order `range` visits a map: sorted by name. */
  function Directives(kv: map<string, string>): seq<(string, string)> {
    Pick(DirectiveOrder, kv)
  }

  /**
   * Ranging over a stanza's map visits each entry exactly once, in strictly
   * increasing name order.
   */
  lemma TemplateOrder(l: Linode, c: Configuration)
    ensures KeysIncreasing(Directives(KeyVals(l, c)))
    ensures forall k, v :: (k, v) in Directives(KeyVals(l, c)) <==> k in KeyVals(l, c) && KeyVals(l, c)[k] == v
  {
    DirectiveOrderIncreasing();
    PickIncreasing(DirectiveOrder, KeyVals(l, c));
    PickMembers(DirectiveOrder, KeyVals(l, c));
  }

  /** One directive as the template prints it: indent, name, space, value. */
  function DirectiveLineOf(d: (string, string)): string {
    Indent + d.0 + " " + d.1
  }

  /** What the `range` part of the template prints: "\n" and the directive line, per entry. */
  function DirectiveText(ds: seq<(string, string)>): string {
    if |ds| == 0 then "" else "\n" + DirectiveLineOf(ds[0]) + DirectiveText(ds[1..])
  }

  /** The entry template executed for one host. */
  function EntryText(host: string, ds: seq<(string, string)>): (text: string)
    ensures StartsWith(text, "Host " + host)
    ensures |text| >= |Indent| + 2 && text[|text| - |Indent| - 2..] == "\n" + Indent + "\n"
  {
    "Host " + host + DirectiveText(ds) + "\n" + Indent + "\n"
  }

  /** One indented line per directive. */
  function DirectiveLines(ds: seq<(string, string)>): (lines: seq<string>)
    ensures |lines| == |ds|
  {
    if |ds| == 0 then [] else [DirectiveLineOf(ds[0])] + DirectiveLines(ds[1..])
  }

  /** A stanza as lines: the host line, the directive lines, the indentation-only separator. */
  function EntryLines(host: string, ds: seq<(string, string)>): seq<string> {
    ["Host " + host] + DirectiveLines(ds) + [Indent]
  }

  lemma {:induction false} DirectiveTextLines(ds: seq<(string, string)>)
    ensures "\n" + Join(DirectiveLines(ds)) == DirectiveText(ds) + "\n"
  {
    if |ds| > 0 {
      var line, rest := DirectiveLineOf(ds[0]), DirectiveLines(ds[1..]);
      DirectiveTextLines(ds[1..]);
      assert DirectiveLines(ds) == [line] + rest;
      assert ([line] + rest)[1..] == rest;
      assert Join(DirectiveLines(ds)) == line + "\n" + Join(rest);
      NewlineShift("\n", line, Join(rest), DirectiveText(ds[1..]));
    }
  }

  /** Moving the separator from before each line to after it, one line at a time. */
  lemma NewlineShift(nl: string, line: string, rest: string, text: string)
    requires nl + rest == text + nl
    ensures nl + (line + nl + rest) == nl + line + text + nl
  {
    calc {
      nl + (line + nl + rest);
      nl + line + (nl + rest);
      nl + line + (text + nl);
      nl + line + text + nl;
    }
  }

  /** The template's text is exactly the stanza's lines, each followed by "\n". */
  lemma EntryTextLines(host: string, ds: seq<(string, string)>)
    ensures EntryText(host, ds) == Join(EntryLines(host, ds))
  {
    var dl := DirectiveLines(ds);
    var head := "Host " + host;
    DirectiveTextLines(ds);
    JoinAppend(dl, [Indent]);
    JoinAppend([head], dl + [Indent]);
    assert EntryLines(host, ds) == [head] + (dl + [Indent]);
    assert Join([Indent]) == Indent + "\n";
    assert Join([head]) == head + "\n";
    assert Join(EntryLines(host, ds)) == (head + "\n") + (Join(dl) + (Indent + "\n"));
    EntryShift(head, "\n", Join(dl), DirectiveText(ds), Indent);
  }

  lemma EntryShift(head: string, nl: string, lines: string, text: string, indent: string)
    requires nl + lines == text + nl
    ensures (head + nl) + (lines + (indent + nl)) == head + text + nl + indent + nl
  {
    calc {
      (head + nl) + (lines + (indent + nl));
      head + (nl + lines) + (indent + nl);
      head + (text + nl) + (indent + nl);
      head + text + nl + indent + nl;
    }
  }

  /** The stanza of one linode. */
  function Stanza(l: Linode, c: Configuration): seq<string> {
    EntryLines(l.name, Directives(KeyVals(l, c)))
  }

  /** One entry of `kv`, as the list the template visits: empty when the name is absent. */
  function Entry(kv: map<string, string>, name: string): seq<(string, string)> {
    if name in kv then [(name, kv[name])] else []
  }

  /** The template visits the four possible names in their fixed order. */
  lemma DirectivesUnrolled(kv: map<string, string>)
    ensures Directives(kv) == Entry(kv, "#") + Entry(kv, "Hostname") + Entry(kv, "IdentityFile") + Entry(kv, "User")
  {
    var u: seq<string> := ["User"];
    var iu := ["IdentityFile"] + u;
    var hiu := ["Hostname"] + iu;
    assert DirectiveOrder == ["#"] + hiu;
    assert Pick(u, kv) == Entry(kv, u[0]) + Pick(u[1..], kv);
    assert u[1..] == [];
    assert Pick(iu, kv) == Entry(kv, iu[0]) + Pick(iu[1..], kv);
    assert iu[1..] == u;
    assert Pick(hiu, kv) == Entry(kv, hiu[0]) + Pick(hiu[1..], kv);
    assert hiu[1..] == iu;
    assert Pick(DirectiveOrder, kv) == Entry(kv, DirectiveOrder[0]) + Pick(DirectiveOrder[1..], kv);
    assert DirectiveOrder[1..] == hiu;
    var e0, e1, e2, e3 := Entry(kv, "#"), Entry(kv, "Hostname"), Entry(kv, "IdentityFile"), Entry(kv, "User");
    assert Pick(DirectiveOrder, kv) == e0 + (e1 + (e2 + (e3 + [])));
    assert e0 + (e1 + (e2 + (e3 + []))) == e0 + e1 + e2 + e3;
  }

  lemma KeyValsEntries(l: Linode, c: Configuration)
    ensures Entry(KeyVals(l, c), "#") == [("#", Annotation(l))]
    ensures Entry(KeyVals(l, c), "Hostname") == [("Hostname", PublicIp(l))]
    ensures Entry(KeyVals(l, c), "IdentityFile") == if c.identityFile != "" then [("IdentityFile", c.identityFile)] else []
    ensures Entry(KeyVals(l, c), "User") == if c.user != "" then [("User", c.user)] else []
  {
  }

  /** The entries of a stanza's map, in the order the template visits them. */
  lemma DirectivesOfKeyVals(l: Linode, c: Configuration)
    ensures Directives(KeyVals(l, c))
         == [("#", Annotation(l)), ("Hostname", PublicIp(l))]
            + (if c.identityFile != "" then [("IdentityFile", c.identityFile)] else [])
            + (if c.user != "" then [("User", c.user)] else [])
  {
    DirectivesUnrolled(KeyVals(l, c));
    KeyValsEntries(l, c);
    assert [("#", Annotation(l))] + [("Hostname", PublicIp(l))] == [("#", Annotation(l)), ("Hostname", PublicIp(l))];
  }

  lemma {:induction false} DirectiveLinesAppend(a: seq<(string, string)>, b: seq<(string, string)>)
    ensures DirectiveLines(a + b) == DirectiveLines(a) + DirectiveLines(b)
  {
    if |a| > 0 {
      assert (a + b)[1..] == a[1..] + b;
      DirectiveLinesAppend(a[1..], b);
    } else {
      assert a + b == b;
    }
  }

  /** A directive line, with the name and its following space written as one string. */
  lemma DirectiveLine(name: string, value: string, named: string)
    requires named == name + " "
    ensures Indent + name + " " + value == Indent + named + value
  {
  }

  /**
   * A stanza, written out: the host line, `#` with the annotation,
   * `Hostname` with the public address (possibly empty), `IdentityFile` and
   * `User` only when set, and the separator.
   */
  lemma StanzaLayout(l: Linode, c: Configuration)
    ensures Stanza(l, c)
         == ["Host " + l.name, Indent + "# " + Annotation(l), Indent + "Hostname " + PublicIp(l)]
            + (if c.identityFile != "" then [Indent + "IdentityFile " + c.identityFile] else [])
            + (if c.user != "" then [Indent + "User " + c.user] else [])
            + [Indent]
  {
    var fixed := [("#", Annotation(l)), ("Hostname", PublicIp(l))];
    var idf := if c.identityFile != "" then [("IdentityFile", c.identityFile)] else [];
    var usr := if c.user != "" then [("User", c.user)] else [];
    var host, note, address := "Host " + l.name, Indent + "# " + Annotation(l), Indent + "Hostname " + PublicIp(l);
    var idfLines := if c.identityFile != "" then [Indent + "IdentityFile " + c.identityFile] else [];
    var usrLines := if c.user != "" then [Indent + "User " + c.user] else [];
    DirectivesOfKeyVals(l, c);
    var lines := DirectiveLines(Directives(KeyVals(l, c)));
    DirectiveLinesAppend(fixed + idf, usr);
    DirectiveLinesAppend(fixed, idf);
    DirectiveLine("#", Annotation(l), "# ");
    DirectiveLine("Hostname", PublicIp(l), "Hostname ");
    DirectiveLine("IdentityFile", c.identityFile, "IdentityFile ");
    DirectiveLine("User", c.user, "User ");
    assert DirectiveLines(fixed) == [note, address];
    assert DirectiveLines(idf) == idfLines;
    assert DirectiveLines(usr) == usrLines;
    assert lines == [note, address] + idfLines + usrLines;
    assert Stanza(l, c) == [host] + lines + [Indent];
    Regroup(host, note, address, idfLines, usrLines, Indent);
  }

  lemma Regroup<T>(a: T, b: T, c: T, xs: seq<T>, ys: seq<T>, z: T)
    ensures [a] + ([b, c] + xs + ys) + [z] == [a, b, c] + xs + ys + [z]
  {
  }

  // ---------------------------------------------------------------------
  // generatedConfig: groups and the whole block
  // ---------------------------------------------------------------------

  /** The stanzas of the running linodes of one group, in group order. */
  function GroupStanzas(group: seq<Linode>, c: Configuration): seq<string> {
    if |group| == 0 then []
    else
      var last := group[|group| - 1];
      GroupStanzas(group[..|group| - 1], c) + (if IsRunning(last) then Stanza(last, c) else [])
  }

  /** An accepted group's header line, blank line and stanzas; nothing for any other group. */
  function Section(linodes: Linodes, c: Configuration, g: string): seq<string>
    requires g in linodes
  {
    if ContainsDisplayGroup(c, g) then ["## " + g, ""] + GroupStanzas(linodes[g], c) else []
  }

  /** The sections of the groups, in the order the map is ranged over. */
  function Sections(linodes: Linodes, c: Configuration, order: seq<string>): seq<string>
    requires InMap(linodes, order)
  {
    if |order| == 0 then []
    else Sections(linodes, c, order[..|order| - 1]) + Section(linodes, c, order[|order| - 1])
  }

  /**
   * The state of `SSHConfig`: the machine directory, the order in which its
   * groups are ranged over, the path of the SSH configuration file and the
   * filter configuration.
   */
  datatype SshConfig = SshConfig(linodes: Linodes, order: seq<string>, path: string, config: Configuration)

  /** The generated block as lines: markers, a blank line, the sections. */
  function BlockLines(sc: SshConfig): seq<string>
    requires InMap(sc.linodes, sc.order)
  {
    [StartToken, ""] + Sections(sc.linodes, sc.config, sc.order) + [EndToken]
  }

  lemma GroupStanzasStep(group: seq<Linode>, j: nat, c: Configuration)
    requires j < |group|
    ensures GroupStanzas(group[..j + 1], c) == GroupStanzas(group[..j], c) + (if IsRunning(group[j]) then Stanza(group[j], c) else [])
  {
    assert group[..j + 1][..j] == group[..j];
  }

  lemma SectionsStep(linodes: Linodes, c: Configuration, order: seq<string>, i: nat)
    requires InMap(linodes, order)
    requires i < |order|
    ensures Sections(linodes, c, order[..i + 1]) == Sections(linodes, c, order[..i]) + Section(linodes, c, order[i])
  {
    assert order[..i + 1][..i] == order[..i];
  }

  /** An accepted group writes `## <group>`, a blank line and its stanzas; any other group writes nothing. */
  lemma SectionJoin(linodes: Linodes, c: Configuration, g: string)
    requires g in linodes
    ensures Join(Section(linodes, c, g))
         == if ContainsDisplayGroup(c, g) then "## " + g + "\n\n" + Join(GroupStanzas(linodes[g], c)) else ""
  {
    if ContainsDisplayGroup(c, g) {
      JoinAppend(["## " + g, ""], GroupStanzas(linodes[g], c));
    }
  }

  lemma BlockStart()
    ensures Join([StartToken, ""]) == StartToken + "\n\n"
  {
    assert Join([""]) == "\n";
  }

  /** The block text: the start marker and "\n\n", the sections, the end marker and "\n". */
  lemma BlockText(sc: SshConfig)
    requires InMap(sc.linodes, sc.order)
    ensures Join(BlockLines(sc)) == StartToken + "\n\n" + Join(Sections(sc.linodes, sc.config, sc.order)) + EndToken + "\n"
  {
    var sections := Sections(sc.linodes, sc.config, sc.order);
    var head := [StartToken, ""];
    assert BlockLines(sc) == (head + sections) + [EndToken];
    BlockStart();
    JoinAppend(head, sections);
    JoinAppend(head + sections, [EndToken]);
    assert Join([EndToken]) == EndToken + "\n";
  }

  /** The stanzas of one group, each written by executing the entry template. */
  method WriteStanzas(group: seq<Linode>, c: Configuration) returns (text: string)
    ensures text == Join(GroupStanzas(group, c))
  {
    text := "";
    for j := 0 to |group|
      invariant text == Join(GroupStanzas(group[..j], c))
    {
      var l := group[j];
      GroupStanzasStep(group, j, c);
      if IsRunning(l) {
        var keyvals := map[];
        keyvals := keyvals["#" := l.displayGroup + " | Linode ID " + Decimal(l.id) + " | " + Decimal(l.ram) + "m Ram"];
        keyvals := keyvals["Hostname" := PublicIp(l)];
        if c.user != "" {
          keyvals := keyvals["User" := c.user];
        }
        if c.identityFile != "" {
          keyvals := keyvals["IdentityFile" := c.identityFile];
        }
        assert keyvals == KeyVals(l, c);
        EntryTextLines(l.name, Directives(keyvals));
        JoinAppend(GroupStanzas(group[..j], c), Stanza(l, c));
        text := text + EntryText(l.name, Directives(keyvals));
      } else {
        assert GroupStanzas(group[..j + 1], c) == GroupStanzas(group[..j], c);
      }
    }
    assert group[..|group|] == group;
  }

  /** The outer loop of generatedConfig: a header and the stanzas for every accepted group, in range order. */
  method WriteSections(linodes: Linodes, c: Configuration, order: seq<string>) returns (text: string)
    requires InMap(linodes, order)
    ensures text == Join(Sections(linodes, c, order))
  {
    text := "";
    assert order[..0] == [];
    for i := 0 to |order|
      invariant text == Join(Sections(linodes, c, order[..i]))
    {
      var g := order[i];
      ghost var done := Sections(linodes, c, order[..i]);
      ghost var section := Section(linodes, c, g);
      SectionsStep(linodes, c, order, i);
      JoinAppend(done, section);
      SectionJoin(linodes, c, g);
      if ContainsDisplayGroup(c, g) {
        var stanzas := WriteStanzas(linodes[g], c);
        text := text + ("## " + g + "\n\n" + stanzas);
      }
    }
    assert order[..|order|] == order;
  }

  /**
   * generatedConfig: the start marker, then for every group the map yields
   * that the filter accepts, a header and the stanzas of its running
   * linodes, then the end marker.
   */
  method GeneratedConfig(sc: SshConfig) returns (out: string)
    requires IsKeyOrder(sc.order, sc.linodes)
    ensures out == Join(BlockLines(sc))
    ensures out == StartToken + "\n\n" + Join(Sections(sc.linodes, sc.config, sc.order)) + EndToken + "\n"
  {
    var sections := WriteSections(sc.linodes, sc.config, sc.order);
    out := StartToken + "\n\n" + sections + EndToken + "\n";
    BlockText(sc);
  }

  // ---------------------------------------------------------------------
  // Which groups and linodes appear in the block
  // ---------------------------------------------------------------------

  /** The lines that begin with `prefix`, in order. */
  function Select(lines: seq<string>, prefix: string): (r: seq<string>)
    ensures |r| <= |lines|
  {
    if |lines| == 0 then []
    else (if StartsWith(lines[0], prefix) then [lines[0]] else []) + Select(lines[1..], prefix)
  }

  lemma {:induction false} SelectAppend(a: seq<string>, b: seq<string>, prefix: string)
    ensures Select(a + b, prefix) == Select(a, prefix) + Select(b, prefix)
  {
    if |a| > 0 {
      assert (a + b)[1..] == a[1..] + b;
      SelectAppend(a[1..], b, prefix);
    } else {
      assert a + b == b;
    }
  }

  /** Selecting keeps exactly the lines with the prefix. */
  lemma {:induction false} SelectMembers(lines: seq<string>, prefix: string)
    ensures forall x :: x in Select(lines, prefix) <==> x in lines && StartsWith(x, prefix)
  {
    if |lines| > 0 {
      SelectMembers(lines[1..], prefix);
      assert lines == [lines[0]] + lines[1..];
    }
  }

  lemma {:induction false} SelectNone(lines: seq<string>, prefix: string)
    requires forall x :: x in lines ==> !StartsWith(x, prefix)
    ensures Select(lines, prefix) == []
  {
    if |lines| > 0 {
      assert lines[0] in lines;
      SelectNone(lines[1..], prefix);
    }
  }

  /** Two prefixes that differ at some position never both begin one line. */
  lemma PrefixClash(x: string, p: string, q: string, i: nat)
    requires i < |p| && i < |q| && p[i] != q[i]
    requires StartsWith(x, p)
    ensures !StartsWith(x, q)
  {
    assert x[i] == p[i];
  }

  /** A line that differs from `q` at some position of both does not begin with `q`. */
  lemma CharClash(x: string, q: string, i: nat)
    requires i < |x| && i < |q| && x[i] != q[i]
    ensures !StartsWith(x, q)
  {
  }

  /** The running linodes of one group, in group order. */
  function RunningOf(group: seq<Linode>): (r: seq<Linode>)
    ensures forall l :: l in r <==> l in group && IsRunning(l)
  {
    if |group| == 0 then []
    else
      var last := group[|group| - 1];
      assert group == group[..|group| - 1] + [last];
      RunningOf(group[..|group| - 1]) + (if IsRunning(last) then [last] else [])
  }

  /**
   * The linodes that get a stanza, in output order: the running linodes of
   * the groups the filter accepts.
   */
  function Rendered(linodes: Linodes, c: Configuration, order: seq<string>): (r: seq<Linode>)
    requires InMap(linodes, order)
    ensures forall l :: l in r <==> exists g :: g in order && ContainsDisplayGroup(c, g) && l in linodes[g] && IsRunning(l)
  {
    if |order| == 0 then []
    else
      var g := order[|order| - 1];
      assert order == order[..|order| - 1] + [g];
      Rendered(linodes, c, order[..|order| - 1]) + (if ContainsDisplayGroup(c, g) then RunningOf(linodes[g]) else [])
  }

  /** The groups that get a header, in output order. */
  function Accepted(c: Configuration, order: seq<string>): (r: seq<string>)
    ensures forall g :: g in r <==> g in order && ContainsDisplayGroup(c, g)
  {
    if |order| == 0 then []
    else
      var g := order[|order| - 1];
      assert order == order[..|order| - 1] + [g];
      Accepted(c, order[..|order| - 1]) + (if ContainsDisplayGroup(c, g) then [g] else [])
  }

  function HostLines(ls: seq<Linode>): seq<string> {
    seq(|ls|, i requires 0 <= i < |ls| => "Host " + ls[i].name)
  }

  function HeaderLines(groups: seq<string>): seq<string> {
    seq(|groups|, i requires 0 <= i < |groups| => "## " + groups[i])
  }

  lemma HostLinesAppend(a: seq<Linode>, b: seq<Linode>)
    ensures HostLines(a + b) == HostLines(a) + HostLines(b)
  {
  }

  lemma HeaderLinesAppend(a: seq<string>, b: seq<string>)
    ensures HeaderLines(a + b) == HeaderLines(a) + HeaderLines(b)
  {
  }

  /** A stanza has one host line, and no header line. */
  lemma StanzaSelect(l: Linode, c: Configuration)
    ensures Select(Stanza(l, c), "Host ") == ["Host " + l.name]
    ensures Select(Stanza(l, c), "## ") == []
  {
    var dl := DirectiveLines(Directives(KeyVals(l, c)));
    DirectiveLinesIndented(Directives(KeyVals(l, c)));
    forall x | x in dl + [Indent]
      ensures !StartsWith(x, "Host ") && !StartsWith(x, "## ")
    {
      PrefixClash(x, Indent, "Host ", 0);
      PrefixClash(x, Indent, "## ", 0);
    }
    SelectNone(dl + [Indent], "Host ");
    SelectNone(dl + [Indent], "## ");
    PrefixClash("Host " + l.name, "Host ", "## ", 0);
    assert Stanza(l, c) == ["Host " + l.name] + (dl + [Indent]);
    SelectAppend(["Host " + l.name], dl + [Indent], "Host ");
    SelectAppend(["Host " + l.name], dl + [Indent], "## ");
  }

  lemma DirectiveLinesIndented(ds: seq<(string, string)>)
    ensures forall x :: x in DirectiveLines(ds) ==> StartsWith(x, Indent)
  {
    if |ds| > 0 {
      DirectiveLinesIndented(ds[1..]);
    }
  }

  lemma {:induction false} GroupSelect(group: seq<Linode>, c: Configuration)
    ensures Select(GroupStanzas(group, c), "Host ") == HostLines(RunningOf(group))
    ensures Select(GroupStanzas(group, c), "## ") == []
  {
    if |group| > 0 {
      var init, last := group[..|group| - 1], group[|group| - 1];
      GroupSelect(init, c);
      var tail := if IsRunning(last) then Stanza(last, c) else [];
      var running := if IsRunning(last) then [last] else [];
      assert GroupStanzas(group, c) == GroupStanzas(init, c) + tail;
      assert RunningOf(group) == RunningOf(init) + running;
      SelectAppend(GroupStanzas(init, c), tail, "Host ");
      SelectAppend(GroupStanzas(init, c), tail, "## ");
      HostLinesAppend(RunningOf(init), running);
      if IsRunning(last) {
        StanzaSelect(last, c);
        assert HostLines(running) == ["Host " + last.name];
      } else {
        assert HostLines(running) == [];
      }
    }
  }

  lemma SectionSelect(linodes: Linodes, c: Configuration, g: string)
    requires g in linodes
    ensures Select(Section(linodes, c, g), "Host ") == if ContainsDisplayGroup(c, g) then HostLines(RunningOf(linodes[g])) else []
    ensures Select(Section(linodes, c, g), "## ") == if ContainsDisplayGroup(c, g) then ["## " + g] else []
  {
    if ContainsDisplayGroup(c, g) {
      GroupSelect(linodes[g], c);
      SelectAppend(["## " + g, ""], GroupStanzas(linodes[g], c), "Host ");
      SelectAppend(["## " + g, ""], GroupStanzas(linodes[g], c), "## ");
      PrefixClash("## " + g, "## ", "Host ", 0);
      assert ["## " + g, ""][1..] == [""];
    }
  }

  lemma {:induction false} SectionsSelect(linodes: Linodes, c: Configuration, order: seq<string>)
    requires InMap(linodes, order)
    ensures Select(Sections(linodes, c, order), "Host ") == HostLines(Rendered(linodes, c, order))
    ensures Select(Sections(linodes, c, order), "## ") == HeaderLines(Accepted(c, order))
  {
    SectionsHosts(linodes, c, order);
    SectionsHeaders(linodes, c, order);
  }

  /** The host lines of the sections are those of the rendered linodes, in range order. */
  lemma {:induction false} SectionsHosts(linodes: Linodes, c: Configuration, order: seq<string>)
    requires InMap(linodes, order)
    ensures Select(Sections(linodes, c, order), "Host ") == HostLines(Rendered(linodes, c, order))
  {
    if |order| > 0 {
      var init, g := order[..|order| - 1], order[|order| - 1];
      SectionsHosts(linodes, c, init);
      SectionSelect(linodes, c, g);
      var before, section := Sections(linodes, c, init), Section(linodes, c, g);
      var rendered := Rendered(linodes, c, init);
      var running := if ContainsDisplayGroup(c, g) then RunningOf(linodes[g]) else [];
      assert Sections(linodes, c, order) == before + section;
      assert Rendered(linodes, c, order) == rendered + running;
      SelectAppend(before, section, "Host ");
      HostLinesAppend(rendered, running);
      assert HostLines([]) == [];
    }
  }

  /** The header lines of the sections are those of the accepted groups, in range order. */
  lemma {:induction false} SectionsHeaders(linodes: Linodes, c: Configuration, order: seq<string>)
    requires InMap(linodes, order)
    ensures Select(Sections(linodes, c, order), "## ") == HeaderLines(Accepted(c, order))
  {
    if |order| > 0 {
      var init, g := order[..|order| - 1], order[|order| - 1];
      SectionsHeaders(linodes, c, init);
      SectionSelect(linodes, c, g);
      var before, section := Sections(linodes, c, init), Section(linodes, c, g);
      var acceptedBefore := Accepted(c, init);
      var accepted := if ContainsDisplayGroup(c, g) then [g] else [];
      assert Sections(linodes, c, order) == before + section;
      assert Accepted(c, order) == acceptedBefore + accepted;
      SelectAppend(before, section, "## ");
      HeaderLinesAppend(acceptedBefore, accepted);
      assert HeaderLines(accepted) == if ContainsDisplayGroup(c, g) then ["## " + g] else [];
    }
  }

  /**
   * The block's host lines are those of the running linodes in accepted
   * groups, one each, in output order; its header lines are those of the
   * accepted groups, in output order.
   */
  lemma BlockSelect(sc: SshConfig)
    requires InMap(sc.linodes, sc.order)
    ensures Select(BlockLines(sc), "Host ") == HostLines(Rendered(sc.linodes, sc.config, sc.order))
    ensures |Select(BlockLines(sc), "Host ")| == |Rendered(sc.linodes, sc.config, sc.order)|
    ensures Select(BlockLines(sc), "## ") == HeaderLines(Accepted(sc.config, sc.order))
  {
    var sections := Sections(sc.linodes, sc.config, sc.order);
    var head, foot := [StartToken, ""], [EndToken];
    SectionsSelect(sc.linodes, sc.config, sc.order);
    MarkersSelectNothing();
    assert BlockLines(sc) == head + sections + foot;
    SelectAppend(head + sections, foot, "Host ");
    SelectAppend(head + sections, foot, "## ");
    SelectAppend(head, sections, "Host ");
    SelectAppend(head, sections, "## ");
  }

  lemma MarkerChars()
    ensures |StartToken| > 2 && StartToken[0] == '#' && StartToken[2] == '#'
    ensures |EndToken| > 2 && EndToken[0] == '#' && EndToken[2] == '#'
    ensures "Host "[0] == 'H' && "## "[2] == ' '
  {
  }

  /** The marker lines and the blank line are neither host nor header lines. */
  lemma MarkersSelectNothing()
    ensures Select([StartToken, ""], "Host ") == [] && Select([StartToken, ""], "## ") == []
    ensures Select([EndToken], "Host ") == [] && Select([EndToken], "## ") == []
  {
    var head, foot := [StartToken, ""], [EndToken];
    MarkerChars();
    CharClash(StartToken, "Host ", 0);
    CharClash(EndToken, "Host ", 0);
    CharClash(StartToken, "## ", 2);
    CharClash(EndToken, "## ", 2);
    SelectNone(head, "Host ");
    SelectNone(head, "## ");
    SelectNone(foot, "Host ");
    SelectNone(foot, "## ");
  }

  /**
   * A group gets a header exactly when the map holds it and the filter
   * accepts it, whatever order the map is ranged in.
   */
  lemma HeaderIff(sc: SshConfig, g: string)
    requires IsKeyOrder(sc.order, sc.linodes)
    ensures ("## " + g in BlockLines(sc)) <==> g in sc.linodes && ContainsDisplayGroup(sc.config, g)
  {
    BlockSelect(sc);
    SelectMembers(BlockLines(sc), "## ");
    var accepted := Accepted(sc.config, sc.order);
    if "## " + g in BlockLines(sc) {
      assert "## " + g in HeaderLines(accepted);
      var i :| 0 <= i < |accepted| && HeaderLines(accepted)[i] == "## " + g;
      assert accepted[i] == ("## " + accepted[i])[3..] == ("## " + g)[3..] == g;
    }
    if g in sc.linodes && ContainsDisplayGroup(sc.config, g) {
      var i :| 0 <= i < |accepted| && accepted[i] == g;
      assert HeaderLines(accepted)[i] == "## " + g;
      assert "## " + g in Select(BlockLines(sc), "## ");
    }
  }

  /**
   * A linode gets a stanza exactly when it is running and sits in a group
   * of the map that the filter accepts, whatever order the map is ranged in.
   */
  lemma RenderedIff(sc: SshConfig, l: Linode)
    requires IsKeyOrder(sc.order, sc.linodes)
    ensures l in Rendered(sc.linodes, sc.config, sc.order)
        <==> IsRunning(l) && exists g :: g in sc.linodes && ContainsDisplayGroup(sc.config, g) && l in sc.linodes[g]
  {
  }

  // ---------------------------------------------------------------------
  // The block is line-shaped: its marker lines occur only at its ends
  // ---------------------------------------------------------------------

  /** A line between the markers: blank, a header, a host line or an indented line. */
  predicate InnerLine(x: string) {
    x == "" || StartsWith(x, "## ") || StartsWith(x, "Host ") || StartsWith(x, Indent)
  }

  lemma InnerLineNotMarker(x: string)
    requires InnerLine(x)
    ensures x != StartToken && x != EndToken
  {
    MarkerChars();
    if x != "" {
      if StartsWith(x, "## ") {
        assert x[2] == ' ';
      } else if StartsWith(x, "Host ") {
        assert x[0] == 'H';
      } else {
        assert x[0] == ' ';
      }
    }
  }

  /** No text of the linode holds a line terminator. */
  predicate PrintableLinode(l: Linode) {
    SingleLine(l.name) && SingleLine(l.displayGroup) && forall ip :: ip in l.ips ==> SingleLine(ip.ip)
  }

  /** No group name, label, address or login setting holds a line terminator. */
  predicate Printable(sc: SshConfig) {
    && SingleLine(sc.config.user)
    && SingleLine(sc.config.identityFile)
    && forall g :: g in sc.linodes ==> SingleLine(g) && forall l :: l in sc.linodes[g] ==> PrintableLinode(l)
  }

  lemma {:induction false} FirstIpSingleLine(ips: seq<LinodeIp>, flag: int)
    requires forall ip :: ip in ips ==> SingleLine(ip.ip)
    ensures SingleLine(FirstIp(ips, flag))
  {
    if |ips| > 0 && ips[0].public != flag {
      FirstIpSingleLine(ips[1..], flag);
    }
  }

  lemma {:induction false} DirectiveLinesSingle(ds: seq<(string, string)>)
    requires forall d :: d in ds ==> SingleLine(d.0) && SingleLine(d.1)
    ensures forall x :: x in DirectiveLines(ds) ==> SingleLine(x)
  {
    if |ds| > 0 {
      assert ds[0] in ds;
      DirectiveLinesSingle(ds[1..]);
    }
  }

  lemma StartsWithConcat(p: string, y: string)
    ensures StartsWith(p + y, p)
  {
    assert (p + y)[..|p|] == p;
  }

  lemma StanzaWellFormed(l: Linode, c: Configuration)
    ensures forall x :: x in Stanza(l, c) ==> InnerLine(x)
    ensures PrintableLinode(l) && SingleLine(c.user) && SingleLine(c.identityFile)
        ==> forall x :: x in Stanza(l, c) ==> SingleLine(x)
  {
    var ds := Directives(KeyVals(l, c));
    assert Stanza(l, c) == ["Host " + l.name] + DirectiveLines(ds) + [Indent];
    DirectiveLinesIndented(ds);
    StartsWithConcat("Host ", l.name);
    assert StartsWith(Indent, Indent);
    if PrintableLinode(l) && SingleLine(c.user) && SingleLine(c.identityFile) {
      DirectivesSingleLine(l, c);
      DirectiveLinesSingle(ds);
    }
  }

  lemma DirectivesSingleLine(l: Linode, c: Configuration)
    requires PrintableLinode(l) && SingleLine(c.user) && SingleLine(c.identityFile)
    ensures forall d :: d in Directives(KeyVals(l, c)) ==> SingleLine(d.0) && SingleLine(d.1)
  {
    FirstIpSingleLine(l.ips, 1);
    var fixed := [("#", Annotation(l)), ("Hostname", PublicIp(l))];
    var idf := if c.identityFile != "" then [("IdentityFile", c.identityFile)] else [];
    var usr := if c.user != "" then [("User", c.user)] else [];
    DirectivesOfKeyVals(l, c);
    var ds := Directives(KeyVals(l, c));
    assert ds == fixed + idf + usr;
    forall d | d in ds
      ensures SingleLine(d.0) && SingleLine(d.1)
    {
      assert d in fixed || d in idf || d in usr;
    }
  }

  lemma {:induction false} GroupWellFormed(group: seq<Linode>, c: Configuration)
    ensures forall x :: x in GroupStanzas(group, c) ==> InnerLine(x)
    ensures (forall l :: l in group ==> PrintableLinode(l)) && SingleLine(c.user) && SingleLine(c.identityFile)
        ==> forall x :: x in GroupStanzas(group, c) ==> SingleLine(x)
  {
    if |group| > 0 {
      var init, last := group[..|group| - 1], group[|group| - 1];
      GroupWellFormed(init, c);
      StanzaWellFormed(last, c);
      assert last in group;
    }
  }

  lemma {:induction false} SectionsWellFormed(linodes: Linodes, c: Configuration, order: seq<string>)
    requires InMap(linodes, order)
    ensures forall x :: x in Sections(linodes, c, order) ==> InnerLine(x)
    ensures (forall g :: g in linodes ==> SingleLine(g) && forall l :: l in linodes[g] ==> PrintableLinode(l))
            && SingleLine(c.user) && SingleLine(c.identityFile)
        ==> forall x :: x in Sections(linodes, c, order) ==> SingleLine(x)
  {
    if |order| > 0 {
      var init, g := order[..|order| - 1], order[|order| - 1];
      SectionsWellFormed(linodes, c, init);
      GroupWellFormed(linodes[g], c);
      StartsWithConcat("## ", g);
    }
  }

  /**
   * The block is its start marker, lines that are neither marker, and its
   * end marker; with printable inputs, every line is a single line.
   */
  lemma BlockWellFormed(sc: SshConfig)
    requires InMap(sc.linodes, sc.order)
    ensures BlockLines(sc) == [StartToken] + ([""] + Sections(sc.linodes, sc.config, sc.order)) + [EndToken]
    ensures StartToken !in [""] + Sections(sc.linodes, sc.config, sc.order)
    ensures EndToken !in [""] + Sections(sc.linodes, sc.config, sc.order)
    ensures Printable(sc) ==> forall x :: x in BlockLines(sc) ==> SingleLine(x)
  {
    var sections := Sections(sc.linodes, sc.config, sc.order);
    var inner := [""] + sections;
    SectionsWellFormed(sc.linodes, sc.config, sc.order);
    forall x | x in inner
      ensures x != StartToken && x != EndToken
    {
      InnerLineNotMarker(x);
    }
    assert BlockLines(sc) == [StartToken] + inner + [EndToken];
    if Printable(sc) {
      MarkersSingleLine();
      forall x | x in BlockLines(sc)
        ensures SingleLine(x)
      {
        assert x == StartToken || x == "" || x in sections || x == EndToken;
      }
    }
  }

  lemma MarkersSingleLine()
    ensures SingleLine(StartToken) && SingleLine(EndToken)
  {
    assert SingleLine(Hashes);
    assert SingleLine(" START GENERATED LINODE-SSH-CONFIG ");
    assert SingleLine(" END GENERATED LINODE-SSH-CONFIG ");
  }

  // ---------------------------------------------------------------------
  // render: the user's lines followed by the block, and its idempotence
  // ---------------------------------------------------------------------

  datatype Option<T> = None | Some(value: T)

  datatype Result<T> = Ok(value: T) | Err(error: string)

  /** The user's part of the output: nothing for a missing file, else its stripped lines. */
  function UsersText(existing: Option<string>): string {
    match existing
    case None => ""
    case Some(text) => Join(UserLines(SplitLines(text)))
  }

  /** What render yields for a file whose contents are `existing`, if it exists. */
  function RenderedText(sc: SshConfig, existing: Option<string>): string
    requires InMap(sc.linodes, sc.order)
  {
    UsersText(existing) + Join(BlockLines(sc))
  }

  /**
   * Stripping the output of render gives back the user's lines that went
   * into it.
   */
  lemma ExtractAfterRender(sc: SshConfig, lines: seq<string>)
    requires InMap(sc.linodes, sc.order)
    requires Printable(sc)
    requires forall x :: x in lines ==> SingleLine(x)
    ensures UserLines(SplitLines(Join(UserLines(lines)) + Join(BlockLines(sc)))) == UserLines(lines)
  {
    var users, block := UserLines(lines), BlockLines(sc);
    var inner := [""] + Sections(sc.linodes, sc.config, sc.order);
    BlockWellFormed(sc);
    JoinAppend(users, block);
    SplitJoin(users + block);
    NoStartKeepsAll(users);
    RunAppend(false, users, block);
    BlockDropped(inner);
  }

  /** Rendering the output of render again gives the same text. */
  /**
   * Rendering render's own output again, whatever order either run ranges
   * the groups in, yields what the second run would have written from the
   * original file.
   */
  lemma RenderStable(sc1: SshConfig, sc2: SshConfig, existing: Option<string>)
    requires InMap(sc1.linodes, sc1.order) && InMap(sc2.linodes, sc2.order)
    requires Printable(sc1)
    ensures RenderedText(sc2, Some(RenderedText(sc1, existing))) == RenderedText(sc2, existing)
  {
    var lines := match existing case None => [] case Some(text) => SplitLines(text);
    assert UsersText(existing) == Join(UserLines(lines));
    ExtractAfterRender(sc1, lines);
  }

  /**
   * The block depends on the order the groups are ranged in: two accepted
   * groups ranged in the two possible orders give different texts.
   */
  lemma RangeOrderMatters() returns (sc1: SshConfig, sc2: SshConfig)
    ensures sc1.linodes == sc2.linodes && sc1.config == sc2.config
    ensures IsKeyOrder(sc1.order, sc1.linodes) && IsKeyOrder(sc2.order, sc2.linodes)
    ensures Join(BlockLines(sc1)) != Join(BlockLines(sc2))
  {
    var linodes: Linodes := map["a" := [], "b" := []];
    var c := Configuration("", [], "", "");
    sc1 := SshConfig(linodes, ["a", "b"], "config", c);
    sc2 := SshConfig(linodes, ["b", "a"], "config", c);
    assert IsKeyOrder(sc1.order, linodes) by { assert linodes.Keys == {"a", "b"}; }
    assert IsKeyOrder(sc2.order, linodes) by { assert linodes.Keys == {"a", "b"}; }
    TwoEmptySections(linodes, c, "a", "b");
    TwoEmptySections(linodes, c, "b", "a");
    assert "## " + "a" == "## a" && "## " + "b" == "## b";
    var head, tail1, tail2 := [StartToken, ""], ["## a", "", "## b", "", EndToken], ["## b", "", "## a", "", EndToken];
    assert BlockLines(sc1) == head + tail1;
    assert BlockLines(sc2) == head + tail2;
    JoinDiffers(head, tail1, tail2);
  }

  /** Two accepted groups with no linodes give just their two headers, in range order. */
  lemma TwoEmptySections(linodes: Linodes, c: Configuration, x: string, y: string)
    requires x in linodes && y in linodes && linodes[x] == [] && linodes[y] == []
    requires c.displayGroup == []
    ensures Sections(linodes, c, [x, y]) == ["## " + x, "", "## " + y, ""]
  {
    assert GroupStanzas([], c) == [];
    assert [x, y][..1] == [x] && [x][..0] == [];
    assert Sections(linodes, c, [x]) == Section(linodes, c, x);
  }

  /** Joins that share their first lines differ where the next lines differ. */
  lemma JoinDiffers(head: seq<string>, t1: seq<string>, t2: seq<string>)
    requires |t1| > 0 && |t2| > 0 && |t1[0]| > 3 && |t2[0]| > 3 && t1[0][3] != t2[0][3]
    ensures Join(head + t1) != Join(head + t2)
  {
    JoinAt(head, t1);
    JoinAt(head, t2);
  }

  /** The fourth character of the line after `head` sits right after `head`'s text. */
  lemma JoinAt(head: seq<string>, t: seq<string>)
    requires |t| > 0 && |t[0]| > 3
    ensures |Join(head)| + 3 < |Join(head + t)| && Join(head + t)[|Join(head)| + 3] == t[0][3]
  {
    JoinAppend(head, t);
    var j := Join(t);
    assert j == t[0] + ("\n" + Join(t[1..]));
    assert j[3] == t[0][3];
  }

  // ---------------------------------------------------------------------
  // update: back up, render, write, over a store of files
  // ---------------------------------------------------------------------

  const BackupSuffix: string := ".linode-ssh-config.bak"

  /** The contents of the file at `path`, if there is one. */
  function Contents(files: map<string, string>, path: string): Option<string> {
    if path in files then Some(files[path]) else None
  }

  /** How copying a file can fail: at open, at create, part way through the copy, or at sync. */
  datatype CopyFault = CopyOk | OpenFails | CreateFails | CopyFailsAfter(written: nat) | SyncFails

  /** How writing a file can fail: at open, or after a prefix has been written. */
  datatype WriteFault = WriteOk | WriteOpenFails | WriteFailsAfter(written: nat)

  /** The outcome of each file operation update performs, chosen by the environment. */
  datatype Faults = Faults(copy: CopyFault, readFails: bool, write: WriteFault)

  function Prefix(s: string, n: nat): string {
    if n < |s| then s[..n] else s
  }

  /** The files as a successful update leaves them. */
  function Updated(files: map<string, string>, sc: SshConfig): map<string, string>
    requires InMap(sc.linodes, sc.order)
  {
    var backedUp := if sc.path in files then files[sc.path + BackupSuffix := files[sc.path]] else files;
    backedUp[sc.path := RenderedText(sc, Contents(files, sc.path))]
  }

  /**
   * A second update with the same directory and file leaves the
   * configuration file as an update from the original file would, whatever
   * order each run ranges the groups in.
   */
  lemma UpdateTwiceStable(files: map<string, string>, sc1: SshConfig, sc2: SshConfig)
    requires InMap(sc1.linodes, sc1.order) && InMap(sc2.linodes, sc2.order)
    requires sc1.path == sc2.path
    requires Printable(sc1)
    ensures Updated(Updated(files, sc1), sc2)[sc2.path] == Updated(files, sc2)[sc2.path]
  {
    RenderStable(sc1, sc2, Contents(files, sc1.path));
  }

  /** A store of files, from path to contents. */
  class Disk {
    var files: map<string, string>

    constructor (initial: map<string, string>)
      ensures files == initial
    {
      files := initial;
    }

    /**
     * copyFile: open the source, create (truncate) the destination, copy,
     * sync. The copy reads the source after the destination is truncated,
     * so copying a file onto itself empties it.
     */
    method CopyFile(src: string, dst: string, fault: CopyFault) returns (err: Option<string>)
      modifies this
      ensures src !in old(files) || fault.OpenFails? || fault.CreateFails? ==> err.Some? && files == old(files)
      ensures src in old(files) && !fault.OpenFails? && !fault.CreateFails? ==>
                var data := if src == dst then "" else old(files)[src];
                && files == old(files)[dst := if fault.CopyFailsAfter? then Prefix(data, fault.written) else data]
                && (err.None? <==> fault.CopyOk?)
    {
      if src !in files || fault.OpenFails? {
        return Some("open " + src);
      }
      if fault.CreateFails? {
        return Some("create " + dst);
      }
      files := files[dst := ""];
      var data := files[src];
      if fault.CopyFailsAfter? {
        files := files[dst := Prefix(data, fault.written)];
        return Some("copy " + src);
      }
      files := files[dst := data];
      if fault.SyncFails? {
        return Some("sync " + dst);
      }
      return None;
    }

    /** ioutil.WriteFile: create or truncate the file, then write the contents. */
    method WriteFile(path: string, contents: string, fault: WriteFault) returns (err: Option<string>)
      modifies this
      ensures fault.WriteOpenFails? ==> err.Some? && files == old(files)
      ensures fault.WriteFailsAfter? ==> err.Some? && files == old(files)[path := Prefix(contents, fault.written)]
      ensures fault.WriteOk? ==> err.None? && files == old(files)[path := contents]
    {
      if fault.WriteOpenFails? {
        return Some("open " + path);
      }
      files := files[path := ""];
      if fault.WriteFailsAfter? {
        files := files[path := Prefix(contents, fault.written)];
        return Some("short write " + path);
      }
      files := files[path := contents];
      return None;
    }
  }

  /** usersConfig: no file means no user lines; otherwise the file's lines with the block stripped. */
  method UsersConfig(sc: SshConfig, disk: Disk, readFails: bool) returns (r: Result<string>)
    ensures sc.path !in disk.files ==> r == Ok("")
    ensures sc.path in disk.files ==> (r.Err? <==> readFails)
    ensures r.Ok? ==> r.value == UsersText(Contents(disk.files, sc.path))
  {
    if sc.path !in disk.files {
      return Ok("");
    }
    if readFails {
      return Err("read " + sc.path);
    }
    var content := StripGenerated(SplitLines(disk.files[sc.path]));
    return Ok(content);
  }

  /** render: the user's part followed by the generated block. */
  method Render(sc: SshConfig, disk: Disk, readFails: bool) returns (r: Result<string>)
    requires IsKeyOrder(sc.order, sc.linodes)
    ensures r.Err? <==> sc.path in disk.files && readFails
    ensures r.Ok? ==> r.value == RenderedText(sc, Contents(disk.files, sc.path))
  {
    var users := UsersConfig(sc, disk, readFails);
    if users.Err? {
      return Err(users.error);
    }
    var generated := GeneratedConfig(sc);
    return Ok(users.value + generated);
  }

  /**
   * update: back up an existing file, render, write. A failed backup stops
   * before the file is written, and the file is never changed unless its
   * old contents sit in the backup.
   */
  method Update(sc: SshConfig, disk: Disk, faults: Faults) returns (err: Option<string>)
    requires IsKeyOrder(sc.order, sc.linodes)
    modifies disk
    ensures err.None? ==> disk.files == Updated(old(disk.files), sc)
    ensures sc.path in old(disk.files) && !faults.copy.CopyOk? ==> err.Some? && Contents(disk.files, sc.path) == Contents(old(disk.files), sc.path)
    ensures sc.path in old(disk.files) && Contents(disk.files, sc.path) != Contents(old(disk.files), sc.path)
        ==> Contents(disk.files, sc.path + BackupSuffix) == Contents(old(disk.files), sc.path)
    ensures forall p :: p != sc.path && p != sc.path + BackupSuffix ==> Contents(disk.files, p) == Contents(old(disk.files), p)
  {
    var backup := sc.path + BackupSuffix;
    assert backup != sc.path by {
      assert |backup| > |sc.path|;
    }
    if sc.path in disk.files {
      err := disk.CopyFile(sc.path, backup, faults.copy);
      if err.Some? {
        return;
      }
    }
    var contents := Render(sc, disk, faults.readFails);
    if contents.Err? {
      return Some(contents.error);
    }
    err := disk.WriteFile(sc.path, contents.value, faults.write);
  }
}
