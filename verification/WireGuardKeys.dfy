/** Which keys an accepted configuration file can have, and one that is no key. */
module WireGuardKeys {
  import opened Bytes
  import opened Text
  import opened WireGuardConfig
  import opened WireGuardText
  import opened WireGuardShape

  predicate NoSpace(s: string) {
    forall i :: 0 <= i < |s| ==> !IsSpace(s[i])
  }

  /** The keys of a table are keys exactly when they have no white space in them. */
  predicate KeysHold(peers: Peers) {
    forall k :: k in peers ==> (IsKey(k) <==> NoSpace(k))
  }

  lemma FirstField(key: string, rest: string)
    requires key != "" && NoSpace(key)
    ensures Fields(key + " " + rest) != [] && Fields(key + " " + rest)[0] == key
  {
    assert key + " " + rest == key + (" " + rest);
    WordEndAt(key, " " + rest);
    assert (key + " " + rest)[..|key|] == key;
  }

  /** The text a section is read from: without a line break it is one line, and nothing is lost in front. */
  lemma OneTrimmedLine(key: string, ips: string)
    requires key != "" && NoSpace(key) && OneLine(ips)
    ensures var lines := Split(Trim(key + " " + ips), '\n');
            lines == [key] || exists rest :: lines == [key + " " + rest]
  {
    var s := key + " " + ips;
    var n := TrimKeeps(s, |key|);
    assert s[..n] == Trim(s);
    IndexOfPrefix(Trim(s), '\n', []);
    if n > |key| {
      assert Trim(s) == key + " " + s[|key| + 1..n];
    } else {
      assert Trim(s) == key;
    }
  }

  lemma {:induction false} TrimKeeps(s: string, m: nat) returns (n: nat)
    requires 0 < m <= |s| && forall i :: 0 <= i < m ==> !IsSpace(s[i])
    ensures m <= n <= |s| && Trim(s) == s[..n]
    decreases |s|
  {
    if IsSpace(s[|s| - 1]) {
      n := TrimKeeps(s[..|s| - 1], m);
      assert s[..|s| - 1][..n] == s[..n];
    } else {
      n := |s|;
      assert s[..n] == s;
    }
  }

  /** Closing a section adds a key that holds, whatever it is. */
  lemma FlushHolds(net: Net, st: Scan)
    requires KeysHold(st.peers) && OneLine(st.ips) && Flush(net, st).Some?
    ensures KeysHold(Flush(net, st).value)
  {
    if st.section == Peer && NoSpace(st.key) {
      var ips := WithoutBlanks(st.ips);
      StillOneLine(st.ips);
      OneTrimmedLine(st.key, ips);
      ListingValid(net, st.key + " " + ips);
      FirstIsKey(net, st.key, ips);
    }
  }

  lemma FirstIsKey(net: Net, key: string, ips: string)
    requires key != "" && NoSpace(key) && OneLine(ips) && ParsePeers(net, key + " " + ips).Some?
    ensures IsKey(key)
  {
    var lines, r := Split(Trim(key + " " + ips), '\n'), ParsePeers(net, key + " " + ips).value;
    OneTrimmedLine(key, ips);
    ListingValid(net, key + " " + ips);
    assert Listed(lines[0], r);
    if lines == [key] {
      OneField(key);
    } else {
      var rest :| lines == [key + " " + rest];
      FirstField(key, rest);
    }
  }

  lemma {:induction false} StillOneLine(s: string)
    requires OneLine(s)
    ensures OneLine(WithoutBlanks(s))
  {
    if s != "" {
      StillOneLine(s[1..]);
    }
  }

  lemma {:induction false} TrimOneLine(s: string)
    requires OneLine(s)
    ensures OneLine(Trim(s))
  {
    TrimLeftOneLine(s);
    TrimRightOneLine(TrimLeft(s));
  }

  lemma {:induction false} TrimLeftOneLine(s: string)
    requires OneLine(s)
    ensures OneLine(TrimLeft(s))
  {
    if s != "" {
      TrimLeftOneLine(s[1..]);
    }
  }

  lemma {:induction false} TrimRightOneLine(s: string)
    requires OneLine(s)
    ensures OneLine(TrimRight(s))
  {
    if s != "" {
      TrimRightOneLine(s[..|s| - 1]);
    }
  }

  lemma LineHolds(net: Net, st: Scan, raw: string)
    requires KeysHold(st.peers) && OneLine(st.ips) && OneLine(raw) && Line(net, st, raw).Some?
    ensures KeysHold(Line(net, st, raw).value.peers) && OneLine(Line(net, st, raw).value.ips)
  {
    var s := Trim(raw);
    if IsHeader(raw) {
      FlushHolds(net, st);
    } else if !Idle(raw) {
      TrimOneLine(raw);
      var cut := IndexOf(s, '=');
      if cut < |s| {
        TrimOneLine(s[cut + 1..]);
      }
    }
  }

  lemma {:induction false} LinesHold(net: Net, st: Scan, lines: seq<string>)
    requires KeysHold(st.peers) && OneLine(st.ips) && Lines(net, st, lines).Some?
    requires forall i :: 0 <= i < |lines| ==> OneLine(lines[i])
    ensures KeysHold(Lines(net, st, lines).value.peers) && OneLine(Lines(net, st, lines).value.ips)
    decreases |lines|
  {
    if lines != [] {
      LineHolds(net, st, lines[0]);
      LinesHold(net, Line(net, st, lines[0]).value, lines[1..]);
    }
  }

  /** The peers of an accepted file are under keys exactly as far as these have no white space in them. */
  lemma AcceptedKeys(net: Net, text: string, k: string)
    requires Persistent(net, text).Some? && k in Persistent(net, text).value
    ensures IsKey(k) <==> NoSpace(k)
  {
    JoinSplit(text, '\n');
    LinesHold(net, START, Split(text, '\n'));
    FlushHolds(net, Lines(net, START, Split(text, '\n')).value);
  }

  // ----- such a file

  const PADS: Pads := Pads("", " ", " ", "")

  function SpacedItems(key: string, a: string, b: string): seq<Item> {
    [Setting("PublicKey", key + " " + a, PADS), Setting("AllowedIPs", b, PADS)]
  }

  function SpacedFile(key: string, a: string, b: string): seq<string> {
    ["[Interface]", "[Peer]"] + Raws(SpacedItems(key, a, b))
  }

  lemma ThreeFields(a: string, b: string, c: string)
    requires Plain(a) && Plain(b) && Plain(c)
    ensures Fields(a + " " + b + " " + c) == [a, b, c]
  {
    var rest := " " + (b + " " + c);
    assert a + " " + b + " " + c == a + rest;
    WordEndAt(a, rest);
    assert (a + rest)[..|a|] == a && (a + rest)[|a|..] == rest;
    SkipBlanks(" ", b + " " + c);
    GapFields(b, " ", c);
  }

  lemma SpacedCloses(net: Net, key: string, a: string, b: string)
    requires IsKey(key) && Plain(a) && Plain(b) && Word(a + b) && net.canonical(a + b)
    ensures Flush(net, Scan(Peer, true, key + " " + a, b, map[])) == Some(map[key + " " + a := []])
  {
    SpacedParsed(net, key, a, b);
    assert key + " " + a + " " + b == (key + " " + a) + " " + b;
    NoBlanks(b);
    assert |key + " " + a| > |key|;
    ClosesWith(net, key + " " + a, b, map[key := [a + b]]);
  }

  lemma ClosesWith(net: Net, k: string, b: string, m: Peers)
    requires k != "" && b != "" && k !in m && ParsePeers(net, k + " " + WithoutBlanks(b)) == Some(m)
    ensures Flush(net, Scan(Peer, true, k, b, map[])) == Some(map[k := []])
  {
  }

  lemma SpacedParsed(net: Net, key: string, a: string, b: string)
    requires IsKey(key) && Plain(a) && Plain(b) && Word(a + b) && net.canonical(a + b)
    ensures ParsePeers(net, key + " " + a + " " + b) == Some(map[key := [a + b]])
  {
    var s := key + " " + a + " " + b;
    SpacedLine(net, s, key, a, b);
    OneTrimmed(s, key, a, b);
  }

  lemma OneTrimmed(s: string, key: string, a: string, b: string)
    requires IsKey(key) && Plain(a) && Plain(b) && s == key + " " + a + " " + b
    ensures Split(Trim(s), '\n') == [s]
  {
    assert s[|s| - 1] == b[|b| - 1];
    TrimNothing(s);
    assert '\n' !in s;
    IndexOfPrefix(s, '\n', []);
  }

  lemma SpacedLine(net: Net, s: string, key: string, a: string, b: string)
    requires IsKey(key) && Plain(a) && Plain(b) && Word(a + b) && net.canonical(a + b) && s == key + " " + a + " " + b
    ensures PeerLines(net, [s], map[]) == Some(map[key := [a + b]])
  {
    ThreeFields(key, a, b);
    assert [key, a, b][1..] == [a, b] && [a, b][1..] == [b] && [b][1..] == [];
    assert Concat([a, b]) == a + Concat([b]) == a + (b + Concat([])) == a + b;
    IndexOfPrefix(a + b, ',', []);
    assert [s][1..] == [];
    assert PeerLines(net, [s], map[]) == PeerLines(net, [], map[][key := [a + b]]) == Some(map[key := [a + b]]);
  }

  /** A file whose key text goes on after a blank is accepted, with a peer that has no prefixes under no key. */
  lemma SpacedKeyAccepted(net: Net, key: string, a: string, b: string)
    requires IsKey(key) && Plain(a) && Plain(b) && Word(a + b) && net.canonical(a + b)
    ensures Persistent(net, Join(SpacedFile(key, a, b), ['\n'])) == Some(map[key + " " + a := []])
    ensures !IsKey(key + " " + a)
  {
    var items := SpacedItems(key, a, b);
    SpacedFits(key, a, b);
    RawsAreLines(items);
    SplitJoin(SpacedFile(key, a, b), '\n');
    SpacedScan(net, items);
    SpacedValues(items, key + " " + a, b);
    SpacedCloses(net, key, a, b);
    assert ' ' in key + " " + a;
  }

  lemma SpacedFits(key: string, a: string, b: string)
    requires IsKey(key) && Plain(a) && Plain(b)
    ensures forall i :: 0 <= i < 2 ==> Fitting(SpacedItems(key, a, b)[i])
  {
    var k := key + " " + a;
    assert k[|k| - 1] == a[|a| - 1] && OneLine(k);
  }

  const INSIDE: Scan := Scan(Interface, true, "", "", map[])
  const BEGUN: Scan := Scan(Peer, true, "", "", map[])

  lemma HeadersRead(net: Net)
    ensures Line(net, START, "[Interface]") == Some(INSIDE)
    ensures Line(net, INSIDE, "[Peer]") == Some(BEGUN)
  {
    InterfaceHeader(net, "", "");
    PeerHeader(net, INSIDE, "", "");
    assert "" + "[Interface]" + "" == "[Interface]" && "" + "[Peer]" + "" == "[Peer]";
  }

  lemma SpacedScan(net: Net, items: seq<Item>)
    requires |items| == 2 && Named(items[0], "PublicKey") && Named(items[1], "AllowedIPs")
    requires Fitting(items[0]) && Fitting(items[1])
    ensures Lines(net, START, ["[Interface]", "[Peer]"] + Raws(items)) ==
            Some(Scan(Peer, true, "" + ValueOf(items, "PublicKey"), "" + ValueOf(items, "AllowedIPs"), map[]))
  {
    HeadersRead(net);
    TwoHeaders(net, "[Interface]", "[Peer]", Raws(items), INSIDE, BEGUN);
    SpacedItemsRead(net, items);
  }

  lemma SpacedItemsRead(net: Net, items: seq<Item>)
    requires |items| == 2 && Named(items[0], "PublicKey") && Named(items[1], "AllowedIPs")
    requires Fitting(items[0]) && Fitting(items[1])
    ensures Lines(net, BEGUN, Raws(items)) ==
            Some(Scan(Peer, true, "" + ValueOf(items, "PublicKey"), "" + ValueOf(items, "AllowedIPs"), map[]))
  {
    ItemsRead(net, BEGUN, items);
  }

  lemma TwoHeaders(net: Net, a: string, b: string, rest: seq<string>, inside: Scan, begun: Scan)
    requires Line(net, START, a) == Some(inside) && Line(net, inside, b) == Some(begun)
    ensures Lines(net, START, [a, b] + rest) == Lines(net, begun, rest)
  {
    OneLineOn(net, START, a, [b] + rest, inside);
    OneLineOn(net, inside, b, rest, begun);
    assert [a, b] + rest == [a] + ([b] + rest);
  }

  lemma SpacedValues(items: seq<Item>, k: string, b: string)
    requires items == [Setting("PublicKey", k, PADS), Setting("AllowedIPs", b, PADS)]
    ensures ValueOf(items, "PublicKey") == k && ValueOf(items, "AllowedIPs") == b
    ensures "" + k == k && "" + b == b
  {
    assert ValueOf(items[1..], "AllowedIPs") == b;
  }
}
