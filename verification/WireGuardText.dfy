/** Peer listings and configuration files as they are written, and what is read back from them. */
module WireGuardText {
  import opened Bytes
  import opened Text
  import opened WireGuardConfig

  /** White space within a line. */
  predicate Blank(s: string) {
    forall i :: 0 <= i < |s| ==> IsSpace(s[i]) && s[i] != '\n'
  }

  predicate AllSpace(s: string) {
    forall i :: 0 <= i < |s| ==> IsSpace(s[i])
  }

  /** Empty, or without white space at either end. */
  predicate Trimmed(s: string) {
    s != "" ==> !IsSpace(s[0]) && !IsSpace(s[|s| - 1])
  }

  lemma {:induction false} TrimLead(a: string, s: string)
    requires AllSpace(a) && (s != "" ==> !IsSpace(s[0]))
    ensures TrimLeft(a + s) == s
    decreases |a|
  {
    if a == "" {
      assert a + s == s;
    } else {
      assert (a + s)[1..] == a[1..] + s;
      TrimLead(a[1..], s);
    }
  }

  lemma {:induction false} TrimTail(s: string, b: string)
    requires AllSpace(b) && (s != "" ==> !IsSpace(s[|s| - 1]))
    ensures TrimRight(s + b) == s
    decreases |b|
  {
    if b == "" {
      assert s + b == s;
    } else {
      assert (s + b)[..|s + b| - 1] == s + b[..|b| - 1];
      TrimTail(s, b[..|b| - 1]);
    }
  }

  lemma {:induction false} TrimAll(a: string)
    requires AllSpace(a)
    ensures TrimLeft(a) == ""
    decreases |a|
  {
    if a != "" {
      TrimAll(a[1..]);
    }
  }

  /** White space around a text goes. */
  lemma TrimPadded(a: string, s: string, b: string)
    requires AllSpace(a) && AllSpace(b) && Trimmed(s)
    ensures Trim(a + s + b) == s
  {
    if s == "" {
      assert a + s + b == a + b;
      TrimAll(a + b);
    } else {
      assert a + s + b == a + (s + b);
      TrimLead(a, s + b);
      TrimTail(s, b);
    }
  }

  // ----- listings

  /** A peer and its prefixes, in order. */
  datatype Entry = Entry(key: string, ips: seq<string>)

  /** A text that can stand for one prefix, canonical or not. */
  predicate Word(p: string) {
    Plain(p) && ',' !in p && p != "(none)"
  }

  predicate WellFormed(e: Entry) {
    IsKey(e.key) && forall i :: 0 <= i < |e.ips| ==> Word(e.ips[i])
  }

  /** The prefixes between commas, or the word for no prefixes. */
  function Written(ips: seq<string>, comma: string): string {
    if ips == [] then "(none)" else Join(ips, comma)
  }

  function Row(e: Entry, gap: string): string {
    e.key + gap + Written(e.ips, ",")
  }

  function Rows(entries: seq<Entry>, gap: string): seq<string> {
    seq(|entries|, i requires 0 <= i < |entries| => Row(entries[i], gap))
  }

  /** Every peer has its own key and only canonical prefixes. */
  predicate Proper(net: Net, entries: seq<Entry>) {
    && (forall i :: 0 <= i < |entries| ==> AllCanonical(net, entries[i].ips))
    && forall i, j :: 0 <= i < j < |entries| ==> entries[i].key != entries[j].key
  }

  /** The table holds exactly these peers. */
  ghost predicate Holds(peers: Peers, entries: seq<Entry>) {
    && (forall i :: 0 <= i < |entries| ==> entries[i].key in peers && peers[entries[i].key] == entries[i].ips)
    && forall k :: k in peers ==> exists i :: 0 <= i < |entries| && entries[i].key == k
  }

  lemma {:induction false} JoinPlain(ips: seq<string>)
    requires ips != [] && forall i :: 0 <= i < |ips| ==> Word(ips[i])
    ensures Plain(Join(ips, [',']))
  {
    if |ips| > 1 {
      JoinPlain(ips[1..]);
    }
  }

  /** Several words with a comma are never the word for none. */
  lemma {:induction false} JoinIsNotNone(ips: seq<string>)
    requires ips != [] && forall i :: 0 <= i < |ips| ==> Word(ips[i])
    ensures Join(ips, [',']) != "(none)"
  {
    if |ips| > 1 {
      var s := Join(ips, [',']);
      assert s[|ips[0]|] == ',' && ',' !in "(none)";
    }
  }

  lemma WrittenPlain(ips: seq<string>)
    requires forall i :: 0 <= i < |ips| ==> Word(ips[i])
    ensures Plain(Written(ips, ","))
    ensures Written(ips, ",") == "(none)" <==> ips == []
    ensures ips != [] ==> Split(Written(ips, ","), ',') == ips
  {
    if ips != [] {
      JoinPlain(ips);
      JoinIsNotNone(ips);
      SplitJoin(ips, ',');
    }
  }

  lemma {:induction false} SkipBlanks(gap: string, b: string)
    requires AllSpace(gap)
    ensures Fields(gap + b) == Fields(b)
  {
    if gap == "" {
      assert gap + b == b;
    } else {
      assert (gap + b)[1..] == gap[1..] + b;
      SkipBlanks(gap[1..], b);
    }
  }

  lemma OneField(b: string)
    requires Plain(b)
    ensures Fields(b) == [b]
  {
    WordEndAt(b, "");
    assert b + "" == b && b[..|b|] == b && b[|b|..] == "";
    assert Fields("") == [];
  }

  lemma GapFields(a: string, gap: string, b: string)
    requires Plain(a) && Plain(b) && gap != "" && AllSpace(gap)
    ensures Fields(a + gap + b) == [a, b]
  {
    var s, rest := a + gap + b, gap + b;
    assert s == a + rest;
    WordEndAt(a, rest);
    assert s[..|a|] == a && s[|a|..] == rest;
    SkipBlanks(gap, b);
    OneField(b);
  }

  /** One row adds its peer, unless the key is there already or a prefix is not canonical. */
  lemma RowReads(net: Net, e: Entry, gap: string, rest: seq<string>, peers: Peers)
    requires WellFormed(e) && gap != "" && Blank(gap)
    ensures PeerLines(net, [Row(e, gap)] + rest, peers) ==
            if e.key in peers || !AllCanonical(net, e.ips) then None
            else PeerLines(net, rest, peers[e.key := e.ips])
  {
    var s, lines := Row(e, gap), [Row(e, gap)] + rest;
    WrittenPlain(e.ips);
    GapFields(e.key, gap, Written(e.ips, ","));
    assert [e.key, Written(e.ips, ",")][1..] == [Written(e.ips, ",")];
    assert Concat([Written(e.ips, ",")]) == Written(e.ips, ",") + Concat([]) == Written(e.ips, ",");
    assert lines[0] == s && lines[1..] == rest;
  }

  /** Peers added to a table that had none of them. */
  ghost predicate Adds(peers: Peers, entries: seq<Entry>, all: Peers) {
    && (forall i :: 0 <= i < |entries| ==> entries[i].key in all && all[entries[i].key] == entries[i].ips)
    && (forall k :: k in peers ==> k in all && all[k] == peers[k])
    && forall k :: k in all ==> k in peers || exists i :: 0 <= i < |entries| && entries[i].key == k
  }

  predicate Fresh(peers: Peers, entries: seq<Entry>) {
    forall i :: 0 <= i < |entries| ==> entries[i].key !in peers
  }

  lemma ProperFirst(net: Net, entries: seq<Entry>, peers: Peers)
    requires entries != []
    ensures var e, rest := entries[0], entries[1..];
            Proper(net, entries) && Fresh(peers, entries) <==>
            && e.key !in peers && AllCanonical(net, e.ips)
            && Proper(net, rest) && Fresh(peers[e.key := e.ips], rest)
  {
    var e, rest := entries[0], entries[1..];
    assert forall i :: 1 <= i < |entries| ==> entries[i] == rest[i - 1];
    assert forall i :: 0 <= i < |rest| ==> rest[i] == entries[i + 1];
    if Proper(net, rest) && Fresh(peers[e.key := e.ips], rest) {
      assert forall j :: 1 <= j < |entries| ==> entries[j].key != e.key;
    }
  }

  lemma AddsFirst(peers: Peers, entries: seq<Entry>, all: Peers)
    requires entries != [] && entries[0].key !in peers
    requires Adds(peers[entries[0].key := entries[0].ips], entries[1..], all)
    ensures Adds(peers, entries, all)
  {
    var e, rest := entries[0], entries[1..];
    assert forall i :: 1 <= i < |entries| ==> entries[i] == rest[i - 1];
    forall k | k in all && k !in peers
      ensures exists i :: 0 <= i < |entries| && entries[i].key == k
    {
      if k != e.key {
        var i :| 0 <= i < |rest| && rest[i].key == k;
        assert entries[i + 1].key == k;
      }
    }
  }

  /** What is left to add after the first peer. */
  lemma AddsOn(net: Net, entries: seq<Entry>, peers: Peers, r: Option<Peers>)
    requires entries != [] && entries[0].key !in peers && AllCanonical(net, entries[0].ips)
    requires var more := peers[entries[0].key := entries[0].ips];
             && (r.Some? <==> Proper(net, entries[1..]) && Fresh(more, entries[1..]))
             && (r.Some? ==> Adds(more, entries[1..], r.value))
    ensures (r.Some? <==> Proper(net, entries) && Fresh(peers, entries)) && (r.Some? ==> Adds(peers, entries, r.value))
  {
    ProperFirst(net, entries, peers);
    if r.Some? {
      AddsFirst(peers, entries, r.value);
    }
  }

  lemma {:induction false} RowsRead(net: Net, entries: seq<Entry>, gap: string, peers: Peers)
    requires gap != "" && Blank(gap) && forall i :: 0 <= i < |entries| ==> WellFormed(entries[i])
    ensures var r := PeerLines(net, Rows(entries, gap), peers);
            && (r.Some? <==> Proper(net, entries) && Fresh(peers, entries))
            && (r.Some? ==> Adds(peers, entries, r.value))
    decreases |entries|
  {
    if entries != [] {
      var e, rest := entries[0], entries[1..];
      assert Rows(entries, gap) == [Row(e, gap)] + Rows(rest, gap);
      RowReads(net, e, gap, Rows(rest, gap), peers);
      if e.key in peers || !AllCanonical(net, e.ips) {
        ProperFirst(net, entries, peers);
      } else {
        RowsRead(net, rest, gap, peers[e.key := e.ips]);
        AddsOn(net, entries, peers, PeerLines(net, Rows(rest, gap), peers[e.key := e.ips]));
      }
    }
  }

  /** A row has no line break and no white space at its ends. */
  lemma RowIsLine(e: Entry, gap: string)
    requires WellFormed(e) && gap != "" && Blank(gap)
    ensures '\n' !in Row(e, gap) && Row(e, gap) != "" && Trimmed(Row(e, gap))
  {
    WrittenPlain(e.ips);
    var w := Written(e.ips, ",");
    assert Row(e, gap)[|Row(e, gap)| - 1] == w[|w| - 1];
  }

  /** Lines without white space at their ends make a text without it. */
  lemma {:induction false} JoinTrimmed(lines: seq<string>)
    requires forall i :: 0 <= i < |lines| ==> lines[i] != "" && Trimmed(lines[i])
    ensures Trimmed(Join(lines, ['\n'])) && (lines != [] ==> Join(lines, ['\n']) != "")
  {
    if |lines| > 1 {
      JoinTrimmed(lines[1..]);
      var rest := Join(lines[1..], ['\n']);
      var s := lines[0] + ['\n'] + rest;
      assert s[0] == lines[0][0] && s[|s| - 1] == rest[|rest| - 1];
    }
  }

  lemma RowsAreLines(entries: seq<Entry>, gap: string)
    requires gap != "" && Blank(gap) && forall i :: 0 <= i < |entries| ==> WellFormed(entries[i])
    ensures forall i :: 0 <= i < |entries| ==>
              '\n' !in Rows(entries, gap)[i] && Rows(entries, gap)[i] != "" && Trimmed(Rows(entries, gap)[i])
  {
    forall i | 0 <= i < |entries|
      ensures '\n' !in Rows(entries, gap)[i] && Rows(entries, gap)[i] != "" && Trimmed(Rows(entries, gap)[i])
    {
      RowIsLine(entries[i], gap);
    }
  }

  /** A listing: one row a peer, with white space around the whole. */
  function Listing(entries: seq<Entry>, gap: string, lead: string, tail: string): string {
    lead + Join(Rows(entries, gap), ['\n']) + tail
  }

  /**
   A listing is read back as exactly its peers with exactly their prefixes in order, and is refused exactly when a key
   comes twice or a prefix is not canonical.
   */
  lemma ListingReadsBack(net: Net, entries: seq<Entry>, gap: string, lead: string, tail: string)
    requires gap != "" && Blank(gap) && AllSpace(lead) && AllSpace(tail)
    requires forall i :: 0 <= i < |entries| ==> WellFormed(entries[i])
    ensures var r := ParsePeers(net, Listing(entries, gap, lead, tail));
            (r.Some? <==> Proper(net, entries)) && (r.Some? ==> Holds(r.value, entries))
  {
    var rows := Rows(entries, gap);
    RowsAreLines(entries, gap);
    JoinTrimmed(rows);
    TrimPadded(lead, Join(rows, ['\n']), tail);
    RowsRead(net, entries, gap, map[]);
    if entries == [] {
      assert PeerLines(net, [""], map[]) == PeerLines(net, [""][1..], map[]) == Some(map[]);
    } else {
      SplitJoin(rows, '\n');
    }
  }

  /** A listing has one table. */
  lemma HoldsOne(a: Peers, b: Peers, entries: seq<Entry>)
    requires Holds(a, entries) && Holds(b, entries)
    ensures a == b
  {
    assert a.Keys == b.Keys;
  }

  // ----- configuration files

  /** White space around the parts of a line. */
  datatype Pads = Pads(lead: string, left: string, right: string, tail: string)

  /** A line inside a section: empty or a comment, or a setting. */
  datatype Item =
    | Note(lead: string, comment: string)
    | Setting(name: string, value: string, pads: Pads)

  predicate OneLine(s: string) {
    '\n' !in s
  }

  predicate WellPadded(p: Pads) {
    Blank(p.lead) && Blank(p.left) && Blank(p.right) && Blank(p.tail)
  }

  /** SaveConfig may only be switched off. */
  predicate Fitting(item: Item) {
    match item
    case Note(lead, comment) =>
      Blank(lead) && OneLine(comment) && (comment != "" ==> comment[0] == '#' && !IsSpace(comment[|comment| - 1]))
    case Setting(name, value, pads) =>
      && name != "" && Trimmed(name) && '=' !in name && name[0] != '[' && name[0] != '#' && Trimmed(value)
      && OneLine(name) && OneLine(value) && WellPadded(pads) && (name == "SaveConfig" ==> value == "false")
  }

  function Raw(item: Item): string {
    match item
    case Note(lead, comment) => lead + comment
    case Setting(name, value, p) => p.lead + (name + p.left + "=" + p.right + value) + p.tail
  }

  function Raws(items: seq<Item>): seq<string> {
    seq(|items|, i requires 0 <= i < |items| => Raw(items[i]))
  }

  predicate Named(item: Item, name: string) {
    item.Setting? && item.name == name
  }

  lemma BlankIsSpace(s: string)
    requires Blank(s)
    ensures AllSpace(s) && OneLine(s)
  {
  }

  /** The right side of a setting's sign, once the line is trimmed. */
  function RightSide(value: string, right: string): string {
    if value == "" then "" else right + value
  }

  lemma RightTrims(value: string, right: string)
    requires Trimmed(value) && AllSpace(right)
    ensures Trim(RightSide(value, right)) == value
  {
    if value != "" {
      assert right + value + "" == right + value;
      TrimPadded(right, value, "");
    }
  }

  lemma LeftTrims(name: string, left: string)
    requires Trimmed(name) && AllSpace(left)
    ensures Trim(name + left) == name
  {
    assert "" + name + left == name + left;
    TrimPadded("", name, left);
  }

  lemma SettingTrims(name: string, value: string, p: Pads)
    requires name != "" && Trimmed(name) && Trimmed(value) && WellPadded(p)
    ensures Trim(p.lead + (name + p.left + "=" + p.right + value) + p.tail) ==
            name + p.left + "=" + RightSide(value, p.right)
  {
    if value == "" {
      SettingEnds(name + p.left + "=", p);
      assert p.lead + (name + p.left + "=" + p.right + value) + p.tail
          == p.lead + (name + p.left + "=") + (p.right + p.tail);
    } else {
      var s := name + p.left + "=" + p.right + value;
      assert s[|s| - 1] == value[|value| - 1];
      TrimPadded(p.lead, s, p.tail);
      assert s == name + p.left + "=" + (p.right + value);
    }
  }

  lemma SettingEnds(s: string, p: Pads)
    requires s != "" && !IsSpace(s[0]) && s[|s| - 1] == '=' && WellPadded(p)
    ensures Trim(p.lead + s + (p.right + p.tail)) == s
  {
    TrimPadded(p.lead, s, p.right + p.tail);
  }

  /** The two sides of a setting. */
  lemma SettingCuts(a: string, b: string)
    requires '=' !in a
    ensures var s := a + "=" + b; IndexOf(s, '=') == |a| < |s| && s[..|a|] == a && s[|a| + 1..] == b
  {
    var s := a + "=" + b;
    IndexOfPrefix(a, '=', b);
    assert s == a + ['='] + b;
  }

  /** What one setting does to the scan of a section. */
  lemma SettingReads(net: Net, st: Scan, item: Item)
    requires item.Setting? && Fitting(item) && st.section != NoSection
    ensures Line(net, st, Raw(item)) ==
            if st.section == Peer && item.name == "PublicKey"
            then if st.key != "" then None else Some(st.(key := item.value))
            else if st.section == Peer && item.name == "AllowedIPs"
            then if st.ips != "" then None else Some(st.(ips := item.value))
            else Some(st)
  {
    var s, cut := SettingParts(item);
    SettingStep(st, s, cut, item.name, item.value);
    TrimmedLine(net, st, Raw(item), s);
  }

  lemma SettingParts(item: Item) returns (s: string, cut: nat)
    requires item.Setting? && Fitting(item)
    ensures Trim(Raw(item)) == s && IndexOf(s, '=') == cut < |s| && s[0] == item.name[0]
    ensures Trim(s[..cut]) == item.name && Trim(s[cut + 1..]) == item.value
  {
    var name, value, p := item.name, item.value, item.pads;
    var a, b := name + p.left, RightSide(value, p.right);
    s, cut := a + "=" + b, |a|;
    SettingTrims(name, value, p);
    SettingCuts(a, b);
    LeftTrims(name, p.left);
    RightTrims(value, p.right);
  }

  lemma TrimmedLine(net: Net, st: Scan, raw: string, s: string)
    requires Trim(raw) == s && s != "" && s[0] != '#' && s[0] != '['
    ensures Line(net, st, raw) == SettingLine(st, s)
  {
  }

  lemma SettingStep(st: Scan, s: string, cut: nat, name: string, value: string)
    requires IndexOf(s, '=') == cut < |s| && Trim(s[..cut]) == name && Trim(s[cut + 1..]) == value
    requires st.section != NoSection && (name == "SaveConfig" ==> value == "false")
    ensures SettingLine(st, s) ==
            if st.section == Peer && name == "PublicKey" then if st.key != "" then None else Some(st.(key := value))
            else if st.section == Peer && name == "AllowedIPs"
            then if st.ips != "" then None else Some(st.(ips := value))
            else Some(st)
  {
  }

  lemma NoteReads(net: Net, st: Scan, item: Item)
    requires item.Note? && Fitting(item)
    ensures Line(net, st, Raw(item)) == Some(st)
  {
    assert Raw(item) == item.lead + item.comment + "";
    TrimPadded(item.lead, item.comment, "");
  }

  /** The value of the setting with a name, or nothing. */
  function ValueOf(items: seq<Item>, name: string): string {
    if items == [] then "" else if Named(items[0], name) then items[0].value else ValueOf(items[1..], name)
  }

  predicate AtMostOnce(items: seq<Item>, name: string) {
    forall i, j :: 0 <= i < j < |items| ==> !(Named(items[i], name) && Named(items[j], name))
  }

  predicate Nowhere(items: seq<Item>, name: string) {
    forall i :: 0 <= i < |items| ==> !Named(items[i], name)
  }

  lemma {:induction false} ValueNowhere(items: seq<Item>, name: string)
    requires Nowhere(items, name)
    ensures ValueOf(items, name) == ""
  {
    if items != [] {
      ValueNowhere(items[1..], name);
    }
  }

  /** A value once the first line is read: what was there, or the line's own. */
  function Now(was: string, item: Item, name: string): string {
    if Named(item, name) then item.value else was
  }

  lemma FirstItem(items: seq<Item>, name: string, was: string)
    requires items != [] && AtMostOnce(items, name) && (was == "" || Nowhere(items, name))
    ensures var now := Now(was, items[0], name);
            && now + ValueOf(items[1..], name) == was + ValueOf(items, name)
            && (now == "" || Nowhere(items[1..], name)) && AtMostOnce(items[1..], name)
    ensures Named(items[0], name) ==> was == ""
  {
    var rest := items[1..];
    assert forall i :: 0 <= i < |rest| ==> rest[i] == items[i + 1];
    if Named(items[0], name) {
      ValueNowhere(rest, name);
    }
  }

  lemma ItemReads(net: Net, st: Scan, item: Item)
    requires st.section == Peer && Fitting(item)
    requires Named(item, "PublicKey") ==> st.key == ""
    requires Named(item, "AllowedIPs") ==> st.ips == ""
    ensures Line(net, st, Raw(item)) ==
            Some(st.(key := Now(st.key, item, "PublicKey"), ips := Now(st.ips, item, "AllowedIPs")))
  {
    if item.Note? {
      NoteReads(net, st, item);
    } else {
      SettingReads(net, st, item);
    }
  }

  /** A section's lines leave the values of its two settings, in whatever order they come. */
  lemma {:induction false} ItemsRead(net: Net, st: Scan, items: seq<Item>)
    requires st.section == Peer && forall i :: 0 <= i < |items| ==> Fitting(items[i])
    requires AtMostOnce(items, "PublicKey") && AtMostOnce(items, "AllowedIPs")
    requires (st.key == "" || Nowhere(items, "PublicKey")) && (st.ips == "" || Nowhere(items, "AllowedIPs"))
    ensures Lines(net, st, Raws(items)) ==
            Some(st.(key := st.key + ValueOf(items, "PublicKey"), ips := st.ips + ValueOf(items, "AllowedIPs")))
    decreases |items|
  {
    if items == [] {
      assert st.key + "" == st.key && st.ips + "" == st.ips;
    } else {
      FirstItem(items, "PublicKey", st.key);
      FirstItem(items, "AllowedIPs", st.ips);
      ItemReads(net, st, items[0]);
      var next := st.(key := Now(st.key, items[0], "PublicKey"), ips := Now(st.ips, items[0], "AllowedIPs"));
      ItemsRead(net, next, items[1..]);
      FirstRaw(net, st, items, next);
    }
  }

  lemma FirstRaw(net: Net, st: Scan, items: seq<Item>, next: Scan)
    requires items != [] && Line(net, st, Raw(items[0])) == Some(next)
    ensures Lines(net, st, Raws(items)) == Lines(net, next, Raws(items[1..]))
  {
    assert Raws(items) == [Raw(items[0])] + Raws(items[1..]);
    OneLineOn(net, st, Raw(items[0]), Raws(items[1..]), next);
  }

  lemma OneLineOn(net: Net, st: Scan, line: string, rest: seq<string>, next: Scan)
    requires Line(net, st, line) == Some(next)
    ensures Lines(net, st, [line] + rest) == Lines(net, next, rest)
  {
    assert ([line] + rest)[1..] == rest;
  }

  // ----- sections

  /** Exactly one line of a section sets a name, and to this value. */
  ghost predicate Says(items: seq<Item>, name: string, value: string) {
    exists i :: 0 <= i < |items| && Named(items[i], name) && items[i].value == value && Alone(items, name, i)
  }

  predicate Alone(items: seq<Item>, name: string, i: nat) {
    forall j :: 0 <= j < |items| && j != i ==> !Named(items[j], name)
  }

  lemma {:induction false} SaysValue(items: seq<Item>, name: string, value: string)
    requires Says(items, name, value)
    ensures AtMostOnce(items, name) && ValueOf(items, name) == value
  {
    var i :| 0 <= i < |items| && Named(items[i], name) && items[i].value == value && Alone(items, name, i);
    if i > 0 {
      assert !Named(items[0], name);
      assert Named(items[1..][i - 1], name) && Alone(items[1..], name, i - 1);
      SaysValue(items[1..], name, value);
    }
  }

  /** A peer section: its header line and the lines below it. */
  datatype PeerSection = PeerSection(lead: string, tail: string, items: seq<Item>, peer: Entry, comma: string)

  predicate Comma(s: string) {
    s != "" && s[0] == ',' && forall i :: 1 <= i < |s| ==> s[i] == ' '
  }

  /** One key, one list of prefixes with blanks after the commas if one likes, and other settings in any order. */
  ghost predicate Composed(s: PeerSection) {
    && Blank(s.lead) && Blank(s.tail) && (forall i :: 0 <= i < |s.items| ==> Fitting(s.items[i])) && Comma(s.comma)
    && WellFormed(s.peer) && Says(s.items, "PublicKey", s.peer.key)
    && Says(s.items, "AllowedIPs", Written(s.peer.ips, s.comma))
  }

  function SectionLines(s: PeerSection): seq<string> {
    [s.lead + "[Peer]" + s.tail] + Raws(s.items)
  }

  function AllLines(sections: seq<PeerSection>): seq<string> {
    if sections == [] then [] else SectionLines(sections[0]) + AllLines(sections[1..])
  }

  function PeersOf(sections: seq<PeerSection>): seq<Entry> {
    seq(|sections|, i requires 0 <= i < |sections| => sections[i].peer)
  }

  lemma {:induction false} BlanksGo(a: string, b: string)
    ensures WithoutBlanks(a + b) == WithoutBlanks(a) + WithoutBlanks(b)
    decreases |a|
  {
    if a == "" {
      assert a + b == b;
    } else {
      assert (a + b)[1..] == a[1..] + b;
      BlanksGo(a[1..], b);
    }
  }

  lemma {:induction false} OnlyBlanks(s: string)
    requires forall i :: 0 <= i < |s| ==> s[i] == ' '
    ensures WithoutBlanks(s) == ""
  {
    if s != "" {
      OnlyBlanks(s[1..]);
    }
  }

  lemma CommaGoes(comma: string)
    requires Comma(comma)
    ensures WithoutBlanks(comma) == ","
  {
    OnlyBlanks(comma[1..]);
  }

  lemma {:induction false} JoinCloses(ips: seq<string>, comma: string)
    requires Comma(comma) && forall i :: 0 <= i < |ips| ==> Word(ips[i])
    ensures WithoutBlanks(Join(ips, comma)) == Join(ips, [','])
  {
    if |ips| == 1 {
      NoBlanks(ips[0]);
    } else if |ips| > 1 {
      var rest := Join(ips[1..], comma);
      JoinCloses(ips[1..], comma);
      NoBlanks(ips[0]);
      CommaGoes(comma);
      BlanksGo(ips[0], comma);
      BlanksGo(ips[0] + comma, rest);
    }
  }

  lemma WrittenCloses(ips: seq<string>, comma: string)
    requires Comma(comma) && forall i :: 0 <= i < |ips| ==> Word(ips[i])
    ensures WithoutBlanks(Written(ips, comma)) == Written(ips, ",") && Written(ips, comma) != ""
  {
    if ips == [] {
      NoBlanks("(none)");
    } else {
      JoinCloses(ips, comma);
      WrittenPlain(ips);
      assert WithoutBlanks("") == "";
    }
  }

  /** Closing a section that is complete adds its peer. */
  lemma SectionCloses(net: Net, e: Entry, comma: string, peers: Peers)
    requires WellFormed(e) && Comma(comma)
    ensures Flush(net, Scan(Peer, true, e.key, Written(e.ips, comma), peers)) ==
            if e.key in peers || !AllCanonical(net, e.ips) then None else Some(peers[e.key := e.ips])
  {
    WrittenCloses(e.ips, comma);
    OneRow(net, e);
    var line := e.key + " " + WithoutBlanks(Written(e.ips, comma));
    assert line == Row(e, " ");
  }

  lemma OneRow(net: Net, e: Entry)
    requires WellFormed(e)
    ensures ParsePeers(net, Row(e, " ")) == if AllCanonical(net, e.ips) then Some(map[e.key := e.ips]) else None
  {
    var entries, r := [e], ParsePeers(net, Row(e, " "));
    assert Rows(entries, " ") == [Row(e, " ")];
    assert "" + Join(Rows(entries, " "), ['\n']) + "" == Row(e, " ");
    ListingReadsBack(net, entries, " ", "", "");
    assert Proper(net, entries) <==> AllCanonical(net, entries[0].ips);
    if r.Some? {
      assert entries[0].key in r.value;
      HoldsOne(r.value, map[e.key := e.ips], entries);
    }
  }

  lemma PeerHeader(net: Net, st: Scan, lead: string, tail: string)
    requires Blank(lead) && Blank(tail) && st.interfaceSeen
    ensures Line(net, st, lead + "[Peer]" + tail) ==
            match Flush(net, st)
            case None => None
            case Some(peers) => Some(Scan(Peer, true, "", "", peers))
  {
    TrimPadded(lead, "[Peer]", tail);
  }

  lemma InterfaceHeader(net: Net, lead: string, tail: string)
    requires Blank(lead) && Blank(tail)
    ensures Line(net, START, lead + "[Interface]" + tail) == Some(Scan(Interface, true, "", "", map[]))
  {
    TrimPadded(lead, "[Interface]", tail);
  }

  // ----- whole files

  /** The peers a file has in the end, given the scan before some of its lines. */
  function Rest(net: Net, st: Scan, lines: seq<string>): Option<Peers> {
    match Lines(net, st, lines)
    case None => None
    case Some(end) => Flush(net, end)
  }

  lemma RestFirst(net: Net, st: Scan, a: seq<string>, b: seq<string>)
    ensures Rest(net, st, a + b) ==
            match Lines(net, st, a)
            case None => None
            case Some(mid) => Rest(net, mid, b)
  {
    LinesAppend(net, st, a, b);
  }

  /** One section, once the one before it has been closed. */
  lemma SectionReads(net: Net, st: Scan, s: PeerSection, peers: Peers)
    requires Composed(s) && st.interfaceSeen && Flush(net, st) == Some(peers)
    ensures Lines(net, st, SectionLines(s)) ==
            Some(Scan(Peer, true, s.peer.key, Written(s.peer.ips, s.comma), peers))
  {
    var begun := Scan(Peer, true, "", "", peers);
    PeerHeader(net, st, s.lead, s.tail);
    SaysValue(s.items, "PublicKey", s.peer.key);
    SaysValue(s.items, "AllowedIPs", Written(s.peer.ips, s.comma));
    ItemsRead(net, begun, s.items);
    assert "" + s.peer.key == s.peer.key && "" + Written(s.peer.ips, s.comma) == Written(s.peer.ips, s.comma);
    OneLineOn(net, st, s.lead + "[Peer]" + s.tail, Raws(s.items), begun);
  }

  /** When a section cannot be closed, nothing after it helps. */
  lemma SectionStops(net: Net, st: Scan, sections: seq<PeerSection>)
    requires st.interfaceSeen && Flush(net, st).None? && forall i :: 0 <= i < |sections| ==> Composed(sections[i])
    ensures Rest(net, st, AllLines(sections)).None?
  {
    if sections != [] {
      var s := sections[0];
      PeerHeader(net, st, s.lead, s.tail);
      assert AllLines(sections)[0] == s.lead + "[Peer]" + s.tail;
    }
  }

  lemma {:induction false} SectionsRead(net: Net, st: Scan, sections: seq<PeerSection>, peers: Peers)
    requires st.interfaceSeen && Flush(net, st) == Some(peers)
    requires forall i :: 0 <= i < |sections| ==> Composed(sections[i])
    ensures var r, entries := Rest(net, st, AllLines(sections)), PeersOf(sections);
            && (r.Some? <==> Proper(net, entries) && Fresh(peers, entries))
            && (r.Some? ==> Adds(peers, entries, r.value))
    decreases |sections|
  {
    if sections != [] {
      var s, rest, entries := sections[0], sections[1..], PeersOf(sections);
      var e := s.peer;
      var full := FirstSection(net, st, sections, peers);
      assert entries[0] == e && entries[1..] == PeersOf(rest);
      if e.key in peers || !AllCanonical(net, e.ips) {
        SectionStops(net, full, rest);
        ProperFirst(net, entries, peers);
      } else {
        SectionsRead(net, full, rest, peers[e.key := e.ips]);
        AddsOn(net, entries, peers, Rest(net, full, AllLines(rest)));
      }
    }
  }

  lemma FirstSection(net: Net, st: Scan, sections: seq<PeerSection>, peers: Peers) returns (full: Scan)
    requires sections != [] && Composed(sections[0]) && st.interfaceSeen && Flush(net, st) == Some(peers)
    ensures Rest(net, st, AllLines(sections)) == Rest(net, full, AllLines(sections[1..])) && full.interfaceSeen
    ensures var e := sections[0].peer;
            Flush(net, full) ==
            if e.key in peers || !AllCanonical(net, e.ips) then None else Some(peers[e.key := e.ips])
  {
    var s := sections[0];
    full := Scan(Peer, true, s.peer.key, Written(s.peer.ips, s.comma), peers);
    SectionReads(net, st, s, peers);
    RestFirst(net, st, SectionLines(s), AllLines(sections[1..]));
    SectionCloses(net, s.peer, s.comma, peers);
  }

  /** A configuration file: comments, an interface section, and peer sections. */
  datatype File = File(notes: seq<Item>, lead: string, tail: string, items: seq<Item>, sections: seq<PeerSection>)

  ghost predicate ComposedFile(f: File) {
    && (forall i :: 0 <= i < |f.notes| ==> f.notes[i].Note? && Fitting(f.notes[i])) && Blank(f.lead) && Blank(f.tail)
    && (forall i :: 0 <= i < |f.items| ==> Fitting(f.items[i]))
    && forall i :: 0 <= i < |f.sections| ==> Composed(f.sections[i])
  }

  function FileLines(f: File): seq<string> {
    Raws(f.notes) + ([f.lead + "[Interface]" + f.tail] + (Raws(f.items) + AllLines(f.sections)))
  }

  /** Lines that change nothing. */
  lemma {:induction false} IdleRead(net: Net, st: Scan, items: seq<Item>)
    requires forall i :: 0 <= i < |items| ==> Fitting(items[i]) && (items[i].Note? || st.section == Interface)
    ensures Lines(net, st, Raws(items)) == Some(st)
    decreases |items|
  {
    if items != [] {
      if items[0].Note? {
        NoteReads(net, st, items[0]);
      } else {
        SettingReads(net, st, items[0]);
      }
      FirstRaw(net, st, items, st);
      IdleRead(net, st, items[1..]);
    }
  }

  lemma RawIsLine(item: Item)
    requires Fitting(item)
    ensures OneLine(Raw(item))
  {
    if item.Setting? {
      BlankIsSpace(item.pads.lead);
      BlankIsSpace(item.pads.tail);
    }
  }

  lemma RawsAreLines(items: seq<Item>)
    requires forall i :: 0 <= i < |items| ==> Fitting(items[i])
    ensures forall i :: 0 <= i < |items| ==> OneLine(Raws(items)[i])
  {
    forall i | 0 <= i < |items|
      ensures OneLine(Raws(items)[i])
    {
      RawIsLine(items[i]);
    }
  }

  predicate AreLines(lines: seq<string>) {
    forall i :: 0 <= i < |lines| ==> OneLine(lines[i])
  }

  lemma {:induction false} SectionsAreLines(sections: seq<PeerSection>)
    requires forall i :: 0 <= i < |sections| ==> Composed(sections[i])
    ensures AreLines(AllLines(sections))
  {
    if sections != [] {
      RawsAreLines(sections[0].items);
      HeaderIsLine(sections[0].lead, "[Peer]", sections[0].tail);
      SectionsAreLines(sections[1..]);
    }
  }

  lemma HeaderIsLine(lead: string, header: string, tail: string)
    requires Blank(lead) && OneLine(header) && Blank(tail)
    ensures OneLine(lead + header + tail)
  {
  }

  /** Comments and the interface section leave no peers. */
  lemma PreambleReads(net: Net, f: File)
    requires ComposedFile(f)
    ensures Rest(net, START, FileLines(f)) == Rest(net, Scan(Interface, true, "", "", map[]), AllLines(f.sections))
    ensures Lines(net, START, FileLines(f)).Some? ==> Lines(net, START, FileLines(f)).value.interfaceSeen
  {
    var header, inside := f.lead + "[Interface]" + f.tail, Scan(Interface, true, "", "", map[]);
    IdleRead(net, START, f.notes);
    LinesAppend(net, START, Raws(f.notes), [header] + (Raws(f.items) + AllLines(f.sections)));
    InterfaceHeader(net, f.lead, f.tail);
    OneLineOn(net, START, header, Raws(f.items) + AllLines(f.sections), inside);
    IdleRead(net, inside, f.items);
    LinesAppend(net, inside, Raws(f.items), AllLines(f.sections));
    SeenStays(net, inside, AllLines(f.sections));
  }

  lemma {:induction false} SeenStays(net: Net, st: Scan, lines: seq<string>)
    requires st.interfaceSeen
    ensures Lines(net, st, lines).Some? ==> Lines(net, st, lines).value.interfaceSeen
    decreases |lines|
  {
    if lines != [] && Line(net, st, lines[0]).Some? {
      SeenStays(net, Line(net, st, lines[0]).value, lines[1..]);
    }
  }

  lemma FileSplits(f: File)
    requires ComposedFile(f)
    ensures Split(Join(FileLines(f), ['\n']), '\n') == FileLines(f)
  {
    FileIsLines(f);
    SplitJoin(FileLines(f), '\n');
  }

  lemma FileIsLines(f: File)
    requires ComposedFile(f)
    ensures AreLines(FileLines(f))
  {
    RawsAreLines(f.notes);
    RawsAreLines(f.items);
    SectionsAreLines(f.sections);
    HeaderIsLine(f.lead, "[Interface]", f.tail);
  }

  /**
   A configuration with an interface section and any peer sections, whatever comments, blanks and other settings stand
   in it, is read as exactly its peers with exactly their prefixes in order; it is refused exactly when a key comes
   twice or a prefix is not canonical.
   */
  lemma FileReadsBack(net: Net, f: File)
    requires ComposedFile(f)
    ensures var r := Persistent(net, Join(FileLines(f), ['\n']));
            (r.Some? <==> Proper(net, PeersOf(f.sections))) && (r.Some? ==> Holds(r.value, PeersOf(f.sections)))
  {
    var inside := Scan(Interface, true, "", "", map[]);
    FileSplits(f);
    PreambleReads(net, f);
    SectionsRead(net, inside, f.sections, map[]);
  }
}
