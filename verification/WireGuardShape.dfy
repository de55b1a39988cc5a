/** What every accepted configuration file looks like. */
module WireGuardShape {
  import opened Bytes
  import opened Text
  import opened WireGuardConfig

  /** An empty line or a comment. */
  predicate Idle(raw: string) {
    Trim(raw) == "" || Trim(raw)[0] == '#'
  }

  predicate IsHeader(raw: string) {
    Trim(raw) != "" && Trim(raw)[0] == '['
  }

  /** Name and value of a setting. */
  function Assigned(raw: string): Option<(string, string)> {
    var s := Trim(raw);
    if Idle(raw) || IsHeader(raw) || IndexOf(s, '=') == |s| then None
    else Some((Trim(s[..IndexOf(s, '=')]), Trim(s[IndexOf(s, '=') + 1..])))
  }

  predicate Assigns(raw: string, name: string) {
    Assigned(raw).Some? && Assigned(raw).value.0 == name
  }

  /** A line below the interface header. */
  predicate Inside(raw: string) {
    || Idle(raw) || Trim(raw) == "[Peer]"
    || (Assigned(raw).Some? && (Assigned(raw).value.0 == "SaveConfig" ==> Assigned(raw).value.1 == "false"))
  }

  /** The interface header is the first line that is not idle, and the only one of its kind. */
  predicate Opens(lines: seq<string>, at: nat) {
    && at < |lines| && Trim(lines[at]) == "[Interface]" && (forall i :: 0 <= i < at ==> Idle(lines[i]))
    && forall i :: at < i < |lines| ==> Inside(lines[i])
  }

  /** What a line that is accepted inside a file does to the scan. */
  lemma LineInside(net: Net, st: Scan, raw: string)
    requires st.interfaceSeen && st.section != NoSection && Line(net, st, raw).Some?
    ensures Inside(raw)
    ensures var next := Line(net, st, raw).value;
            && next.interfaceSeen && next.section != NoSection
            && (IsHeader(raw) ==> Flush(net, st).Some? && next.section == Peer && next.key == "" && next.ips == "")
            && (!IsHeader(raw) ==> next.section == st.section)
  {
  }

  lemma {:induction false} LinesInside(net: Net, st: Scan, lines: seq<string>)
    requires st.interfaceSeen && st.section != NoSection && Lines(net, st, lines).Some?
    ensures forall i :: 0 <= i < |lines| ==> Inside(lines[i])
    decreases |lines|
  {
    if lines != [] {
      LineInside(net, st, lines[0]);
      LinesInside(net, Line(net, st, lines[0]).value, lines[1..]);
      assert forall i :: 1 <= i < |lines| ==> lines[i] == lines[1..][i - 1];
    }
  }

  lemma LineBefore(net: Net, raw: string)
    requires Line(net, START, raw).Some?
    ensures Idle(raw) || Trim(raw) == "[Interface]"
    ensures Idle(raw) ==> Line(net, START, raw) == Some(START)
    ensures !Idle(raw) ==> Line(net, START, raw) == Some(Scan(Interface, true, "", "", map[]))
  {
  }

  lemma {:induction false} LinesOpen(net: Net, lines: seq<string>) returns (at: nat)
    requires Lines(net, START, lines).Some? && Lines(net, START, lines).value.interfaceSeen
    ensures Opens(lines, at)
    decreases |lines|
  {
    LineBefore(net, lines[0]);
    if Idle(lines[0]) {
      at := LinesOpen(net, lines[1..]);
      at := at + 1;
      assert forall i :: 1 <= i < |lines| ==> lines[i] == lines[1..][i - 1];
    } else {
      at := 0;
      LinesInside(net, Line(net, START, lines[0]).value, lines[1..]);
      assert forall i :: 1 <= i < |lines| ==> lines[i] == lines[1..][i - 1];
    }
  }

  /**
   In an accepted file one interface header comes first, and below it stand only peer headers, settings, comments and
   empty lines; saving back is never switched on.
   */
  lemma AcceptedShape(net: Net, text: string)
    requires Persistent(net, text).Some?
    ensures exists at :: Opens(Split(text, '\n'), at)
  {
    var at := LinesOpen(net, Split(text, '\n'));
  }

  // ----- each peer section has one key and one list of prefixes

  /** The value a peer section has read under a name. */
  function ValueIn(st: Scan, name: string): string {
    if name == "PublicKey" then st.key else st.ips
  }

  predicate Kind(name: string) {
    name == "PublicKey" || name == "AllowedIPs"
  }

  /** A line of a peer section sets a value once, and otherwise leaves it. */
  lemma LineValue(net: Net, st: Scan, raw: string, name: string)
    requires st.section == Peer && !IsHeader(raw) && Kind(name) && Line(net, st, raw).Some?
    ensures var next := Line(net, st, raw).value;
            && next.section == Peer
            && (if Assigns(raw, name) then ValueIn(st, name) == "" && ValueIn(next, name) == Assigned(raw).value.1
                else ValueIn(next, name) == ValueIn(st, name))
  {
    var s := Trim(raw);
    if !Idle(raw) {
      assert Line(net, st, raw) == SettingLine(st, s);
    }
  }

  predicate NoHeaders(lines: seq<string>) {
    forall i :: 0 <= i < |lines| ==> !IsHeader(lines[i])
  }

  predicate NoneAssigns(lines: seq<string>, name: string) {
    forall i :: 0 <= i < |lines| ==> !Assigns(lines[i], name)
  }

  /** Lines without a name keep its value; with a value that is there already no line has the name. */
  lemma {:induction false} LinesValue(net: Net, st: Scan, lines: seq<string>, name: string)
    requires st.section == Peer && NoHeaders(lines) && Kind(name) && Lines(net, st, lines).Some?
    ensures var end := Lines(net, st, lines).value;
            && end.section == Peer && (NoneAssigns(lines, name) ==> ValueIn(end, name) == ValueIn(st, name))
    ensures ValueIn(st, name) != "" ==> NoneAssigns(lines, name)
    decreases |lines|
  {
    if lines != [] {
      var next := Line(net, st, lines[0]).value;
      LineValue(net, st, lines[0], name);
      assert forall i :: 0 <= i < |lines[1..]| ==> lines[1..][i] == lines[i + 1];
      assert forall i :: 1 <= i < |lines| ==> lines[i] == lines[1..][i - 1];
      LinesValue(net, next, lines[1..], name);
    }
  }

  /** The scan after some lines of an accepted file, and what is left. */
  lemma ScanAt(net: Net, lines: seq<string>, i: nat) returns (st: Scan)
    requires Lines(net, START, lines).Some? && i <= |lines|
    ensures Lines(net, START, lines[..i]) == Some(st) && Lines(net, st, lines[i..]) == Lines(net, START, lines)
  {
    assert lines == lines[..i] + lines[i..];
    LinesAppend(net, START, lines[..i], lines[i..]);
    st := Lines(net, START, lines[..i]).value;
  }

  /** The one line that set a value. */
  lemma {:induction false} Setter(net: Net, st: Scan, lines: seq<string>, name: string) returns (i: nat)
    requires st.section == Peer && NoHeaders(lines) && Kind(name) && Lines(net, st, lines).Some?
    requires ValueIn(st, name) == "" && ValueIn(Lines(net, st, lines).value, name) != ""
    ensures i < |lines| && Assigns(lines[i], name) && Assigned(lines[i]).value.1 != ""
    ensures NoneAssigns(lines[i + 1..], name)
    decreases |lines|
  {
    var next := Line(net, st, lines[0]).value;
    LineValue(net, st, lines[0], name);
    assert forall i :: 0 <= i < |lines[1..]| ==> lines[1..][i] == lines[i + 1];
    if ValueIn(next, name) != "" {
      LinesValue(net, next, lines[1..], name);
      i := 0;
    } else {
      var j := Setter(net, next, lines[1..], name);
      i := j + 1;
      assert lines[i + 1..] == lines[1..][j + 1..];
    }
  }

  /** From a peer header to the next header or the end. */
  predicate IsSection(lines: seq<string>, h: nat, e: nat) {
    && h < e <= |lines| && Trim(lines[h]) == "[Peer]" && NoHeaders(lines[h + 1..e])
    && (e == |lines| || IsHeader(lines[e]))
  }

  /** The last line of a section that sets a name gives it a value. */
  ghost predicate SetLast(lines: seq<string>, name: string) {
    exists i :: && 0 <= i < |lines| && Assigns(lines[i], name) && Assigned(lines[i]).value.1 != ""
                && forall j :: i < j < |lines| ==> !Assigns(lines[j], name)
  }

  /** Every peer section of an accepted file has a key and prefixes, and never sets either again. */
  lemma SectionsComplete(net: Net, text: string, h: nat, e: nat)
    requires Persistent(net, text).Some? && IsSection(Split(text, '\n'), h, e)
    ensures SetLast(Split(text, '\n')[h + 1..e], "PublicKey") && SetLast(Split(text, '\n')[h + 1..e], "AllowedIPs")
  {
    var lines := Split(text, '\n');
    var begun, end := SectionScans(net, lines, h, e);
    SectionSets(net, begun, end, lines[h + 1..e], "PublicKey");
    SectionSets(net, begun, end, lines[h + 1..e], "AllowedIPs");
  }

  lemma SectionSets(net: Net, begun: Scan, end: Scan, lines: seq<string>, name: string)
    requires begun.section == Peer && begun.key == begun.ips == "" && NoHeaders(lines) && Kind(name)
    requires Lines(net, begun, lines) == Some(end) && Flush(net, end).Some?
    ensures SetLast(lines, name)
  {
    LinesValue(net, begun, lines, name);
    var i := Setter(net, begun, lines, name);
    assert forall j :: i < j < |lines| ==> lines[j] == lines[i + 1..][j - i - 1];
  }

  /** The scans at the beginning and the end of a section. */
  lemma SectionScans(net: Net, lines: seq<string>, h: nat, e: nat) returns (begun: Scan, end: Scan)
    requires Lines(net, START, lines).Some? && Flush(net, Lines(net, START, lines).value).Some?
    requires IsSection(lines, h, e)
    ensures begun.section == Peer && begun.key == begun.ips == ""
    ensures Lines(net, begun, lines[h + 1..e]) == Some(end) && Flush(net, end).Some?
  {
    var st := ScanAt(net, lines, h);
    assert lines[h..] == [lines[h]] + lines[h + 1..];
    begun := Line(net, st, lines[h]).value;
    assert lines[h + 1..] == lines[h + 1..e] + lines[e..];
    LinesAppend(net, begun, lines[h + 1..e], lines[e..]);
    end := Lines(net, begun, lines[h + 1..e]).value;
    if e < |lines| {
      assert lines[e..][0] == lines[e];
    }
  }

  // ----- tables

  /** Keys are keys and prefixes are canonical. */
  predicate Valid(net: Net, peers: Peers) {
    forall k :: k in peers ==> IsKey(k) && AllCanonical(net, peers[k])
  }

  /** A line of an accepted listing is empty or about a peer of the table. */
  predicate Listed(line: string, peers: Peers) {
    line == "" || (|Fields(line)| >= 2 && Fields(line)[0] in peers)
  }

  lemma {:induction false} PeerLinesValid(net: Net, lines: seq<string>, peers: Peers)
    requires Valid(net, peers) && PeerLines(net, lines, peers).Some?
    ensures var r := PeerLines(net, lines, peers).value;
            Valid(net, r) && peers.Keys <= r.Keys && forall i :: 0 <= i < |lines| ==> Listed(lines[i], r)
    decreases |lines|
  {
    if lines != [] {
      if lines[0] == "" {
        PeerLinesValid(net, lines[1..], peers);
      } else {
        var f := Fields(lines[0]);
        var ips := Concat(f[1..]);
        var next := peers[f[0] := if ips == "(none)" then [] else Split(ips, ',')];
        PeerLinesValid(net, lines[1..], next);
      }
      assert forall i :: 1 <= i < |lines| ==> lines[i] == lines[1..][i - 1];
    }
  }

  /** Whatever a listing that is accepted looks like: every line of it is about a peer, under a key, with prefixes. */
  lemma ListingValid(net: Net, text: string)
    requires ParsePeers(net, text).Some?
    ensures var r := ParsePeers(net, text).value;
            Valid(net, r) && forall i :: 0 <= i < |Split(Trim(text), '\n')| ==> Listed(Split(Trim(text), '\n')[i], r)
  {
    PeerLinesValid(net, Split(Trim(text), '\n'), map[]);
  }
}
