/** The peer configuration text: its strict reader, and what appending a peer block does to it. */
module WireGuardConfig {
  import opened Bytes
  import opened Text

  /** Peers by public key; an allowed prefix is identified by its canonical text. */
  type Peers = map<string, seq<string>>

  /** The address library: which texts are canonical prefixes, and which prefixes overlap. */
  datatype Net = Net(canonical: string -> bool, overlaps: (string, string) -> bool)

  const CIDR := "10.66.66.5/32"

  function TrimLeft(s: string): string {
    if s != "" && IsSpace(s[0]) then TrimLeft(s[1..]) else s
  }

  function TrimRight(s: string): string {
    if s != "" && IsSpace(s[|s| - 1]) then TrimRight(s[..|s| - 1]) else s
  }

  function Trim(s: string): string {
    TrimRight(TrimLeft(s))
  }

  /** Length of the first word. */
  function WordEnd(s: string): (n: nat)
    ensures n <= |s|
    ensures s != "" && !IsSpace(s[0]) ==> n > 0
  {
    if s == "" || IsSpace(s[0]) then 0 else 1 + WordEnd(s[1..])
  }

  function Fields(s: string): seq<string> {
    if s == "" then []
    else if IsSpace(s[0]) then Fields(s[1..])
    else [s[..WordEnd(s)]] + Fields(s[WordEnd(s)..])
  }

  function Concat(words: seq<string>): string {
    if words == [] then "" else words[0] + Concat(words[1..])
  }

  function WithoutBlanks(s: string): string {
    if s == "" then "" else (if s[0] == ' ' then "" else [s[0]]) + WithoutBlanks(s[1..])
  }

  predicate Base64Char(c: char) {
    'A' <= c <= 'Z' || 'a' <= c <= 'z' || '0' <= c <= '9' || c == '+' || c == '/'
  }

  /** The texts that decode to 32 bytes. */
  predicate IsKey(s: string) {
    |s| == 44 && s[43] == '=' && forall i :: 0 <= i < 43 ==> Base64Char(s[i])
  }

  // ----- lines of the peer listing

  function AllCanonical(net: Net, parts: seq<string>): bool {
    forall i :: 0 <= i < |parts| ==> net.canonical(parts[i])
  }

  function PeerLines(net: Net, lines: seq<string>, peers: Peers): Option<Peers> {
    if lines == [] then Some(peers)
    else if lines[0] == "" then PeerLines(net, lines[1..], peers)
    else
      var f := Fields(lines[0]);
      if |f| < 2 || !IsKey(f[0]) || f[0] in peers then None
      else
        var ips := Concat(f[1..]);
        if ips == "(none)" then PeerLines(net, lines[1..], peers[f[0] := []])
        else if !AllCanonical(net, Split(ips, ',')) then None
        else PeerLines(net, lines[1..], peers[f[0] := Split(ips, ',')])
  }

  function ParsePeers(net: Net, text: string): Option<Peers> {
    PeerLines(net, Split(Trim(text), '\n'), map[])
  }

  method ReadPeers(net: Net, text: string) returns (r: Option<Peers>)
    ensures r == ParsePeers(net, text)
  {
    var lines := Split(Trim(text), '\n');
    var peers: Peers := map[];
    var i := 0;
    while i < |lines|
      invariant 0 <= i <= |lines|
      invariant PeerLines(net, lines, map[]) == PeerLines(net, lines[i..], peers)
    {
      var line := lines[i];
      assert lines[i..][0] == line && lines[i..][1..] == lines[i + 1..];
      i := i + 1;
      if line == "" {
        continue;
      }
      var f := Fields(line);
      if |f| < 2 {
        return None;
      }
      var ips := Concat(f[1..]);
      if !IsKey(f[0]) || f[0] in peers {
        return None;
      }
      if ips == "(none)" {
        peers := peers[f[0] := []];
        continue;
      }
      var parts := Split(ips, ',');
      var k := 0;
      while k < |parts|
        invariant 0 <= k <= |parts| && forall j :: 0 <= j < k ==> net.canonical(parts[j])
      {
        if !net.canonical(parts[k]) {
          return None;
        }
        k := k + 1;
      }
      peers := peers[f[0] := parts];
    }
    assert lines[i..] == [];
    return Some(peers);
  }

  // ----- the configuration file

  datatype Section = NoSection | Interface | Peer

  datatype Scan = Scan(section: Section, interfaceSeen: bool, key: string, ips: string, peers: Peers)

  const START := Scan(NoSection, false, "", "", map[])

  /** Closes the section that is open: a peer needs a new key and readable prefixes. */
  function Flush(net: Net, st: Scan): Option<Peers> {
    if st.section != Peer then Some(st.peers)
    else if st.key == "" || st.ips == "" || st.key in st.peers then None
    else
      match ParsePeers(net, st.key + " " + WithoutBlanks(st.ips))
      case None => None
      case Some(m) => Some(st.peers[st.key := if st.key in m then m[st.key] else []])
  }

  function HeaderLine(net: Net, st: Scan, s: string): Option<Scan> {
    match Flush(net, st)
    case None => None
    case Some(peers) =>
      if s == "[Interface]" then
        if st.interfaceSeen || st.section != NoSection then None else Some(Scan(Interface, true, "", "", peers))
      else if s == "[Peer]" && st.interfaceSeen then Some(Scan(Peer, true, "", "", peers))
      else None
  }

  function SettingLine(st: Scan, s: string): Option<Scan> {
    var cut := IndexOf(s, '=');
    if cut == |s| || st.section == NoSection then None
    else
      var k, v := Trim(s[..cut]), Trim(s[cut + 1..]);
      if k == "SaveConfig" && v != "false" then None
      else if st.section == Peer && k == "PublicKey" then if st.key != "" then None else Some(st.(key := v))
      else if st.section == Peer && k == "AllowedIPs" then if st.ips != "" then None else Some(st.(ips := v))
      else Some(st)
  }

  function Line(net: Net, st: Scan, raw: string): Option<Scan> {
    var s := Trim(raw);
    if s == "" || s[0] == '#' then Some(st)
    else if s[0] == '[' then HeaderLine(net, st, s)
    else SettingLine(st, s)
  }

  function Lines(net: Net, st: Scan, lines: seq<string>): Option<Scan>
    decreases |lines|
  {
    if lines == [] then Some(st)
    else
      match Line(net, st, lines[0])
      case None => None
      case Some(next) => Lines(net, next, lines[1..])
  }

  /** The peers of a configuration text, or None when it is refused. */
  function Persistent(net: Net, text: string): Option<Peers> {
    match Lines(net, START, Split(text, '\n'))
    case None => None
    case Some(st) => if st.interfaceSeen then Flush(net, st) else None
  }

  method ReadConfig(net: Net, text: string) returns (r: Option<Peers>)
    ensures r == Persistent(net, text)
  {
    var lines := Split(text, '\n');
    var peers: Peers := map[];
    var section, interfaceSeen, key, ips := NoSection, false, "", "";
    var i := 0;
    while i < |lines|
      invariant 0 <= i <= |lines|
      invariant Lines(net, START, lines) == Lines(net, Scan(section, interfaceSeen, key, ips, peers), lines[i..])
    {
      var s := Trim(lines[i]);
      assert lines[i..][0] == lines[i] && lines[i..][1..] == lines[i + 1..];
      i := i + 1;
      if s == "" || s[0] == '#' {
        continue;
      }
      if s[0] == '[' {
        var flushed := CloseSection(net, section, interfaceSeen, key, ips, peers);
        if flushed.None? {
          return None;
        }
        peers := flushed.value;
        if s != "[Interface]" && s != "[Peer]" {
          return None;
        }
        if s == "[Interface]" {
          if interfaceSeen || section != NoSection {
            return None;
          }
          interfaceSeen := true;
          section := Interface;
        } else {
          if !interfaceSeen {
            return None;
          }
          section := Peer;
        }
        key := "";
        ips := "";
        continue;
      }
      var cut := IndexOf(s, '=');
      if cut == |s| || section == NoSection {
        return None;
      }
      var k, v := Trim(s[..cut]), Trim(s[cut + 1..]);
      if k == "SaveConfig" && v != "false" {
        return None;
      }
      if section == Peer {
        if k == "PublicKey" {
          if key != "" {
            return None;
          }
          key := v;
        } else if k == "AllowedIPs" {
          if ips != "" {
            return None;
          }
          ips := v;
        }
      }
    }
    assert lines[i..] == [];
    if !interfaceSeen {
      return None;
    }
    r := CloseSection(net, section, interfaceSeen, key, ips, peers);
  }

  method CloseSection(net: Net, section: Section, interfaceSeen: bool, key: string, ips: string, peers: Peers)
    returns (r: Option<Peers>)
    ensures r == Flush(net, Scan(section, interfaceSeen, key, ips, peers))
  {
    if section != Peer {
      return Some(peers);
    }
    if key == "" || ips == "" || key in peers {
      return None;
    }
    var m := ReadPeers(net, key + " " + WithoutBlanks(ips));
    if m.None? {
      return None;
    }
    return Some(peers[key := if key in m.value then m.value[key] else []]);
  }

  // ----- appending a peer

  function KeyLine(key: string): string {
    "PublicKey" + " = " + key
  }

  function IpsLine(): string {
    "AllowedIPs" + " = " + CIDR
  }

  /** What enrolment appends. */
  function Block(key: string): string {
    "\n" + "[Peer]" + "\n" + KeyLine(key) + "\n" + IpsLine() + "\n"
  }

  lemma TrimNothing(s: string)
    requires s != "" && !IsSpace(s[0]) && !IsSpace(s[|s| - 1])
    ensures Trim(s) == s
  {
  }

  lemma FourLines(a: string, b: string, c: string, d: string)
    requires '\n' !in a && '\n' !in b && '\n' !in c && '\n' !in d
    ensures Split(a + "\n" + (b + "\n" + (c + "\n" + d)), '\n') == [a, b, c, d]
  {
    var parts := [a, b, c, d];
    assert parts[1..] == [b, c, d] && [b, c, d][1..] == [c, d] && [c, d][1..] == [d];
    assert Join([d], ['\n']) == d;
    assert Join([c, d], ['\n']) == c + ['\n'] + d;
    assert Join([b, c, d], ['\n']) == b + ['\n'] + Join([c, d], ['\n']);
    assert Join(parts, ['\n']) == a + ['\n'] + Join([b, c, d], ['\n']);
    SplitJoin(parts, '\n');
  }

  /** A block that starts by ending the last line of the old text has three lines of its own and an empty one. */
  lemma BlockLines(text: string, a: string, b: string, c: string)
    requires '\n' !in a && '\n' !in b && '\n' !in c
    ensures Split(text + ("\n" + a + "\n" + b + "\n" + c + "\n"), '\n') == Split(text, '\n') + [a, b, c, ""]
  {
    var rest := a + "\n" + (b + "\n" + (c + "\n" + ""));
    assert text + ("\n" + a + "\n" + b + "\n" + c + "\n") == text + ['\n'] + rest;
    SplitAround(text, '\n', rest);
    FourLines(a, b, c, "");
  }

  lemma NoNewlines(key: string)
    requires IsKey(key)
    ensures '\n' !in "[Peer]" && '\n' !in KeyLine(key) && '\n' !in IpsLine()
  {
    assert forall j :: 0 <= j < |key| ==> key[j] != '\n';
  }

  lemma {:induction false} LinesAppend(net: Net, st: Scan, a: seq<string>, b: seq<string>)
    ensures Lines(net, st, a + b) ==
            match Lines(net, st, a)
            case None => None
            case Some(mid) => Lines(net, mid, b)
    decreases |a|
  {
    if a == [] {
      assert a + b == b;
    } else {
      assert (a + b)[0] == a[0] && (a + b)[1..] == a[1..] + b;
      match Line(net, st, a[0])
      case None =>
      case Some(next) => LinesAppend(net, next, a[1..], b);
    }
  }

  predicate Plain(s: string) {
    s != "" && forall i :: 0 <= i < |s| ==> !IsSpace(s[i]) && s[i] != '\n'
  }

  /** An assignment with single blanks around its sign is read back. */
  lemma Assignment(name: string, value: string)
    requires Plain(name) && Plain(value) && '=' !in name
    ensures var s := name + " = " + value;
            && Trim(s) == s && s[0] == name[0] && IndexOf(s, '=') == |name| + 1
            && Trim(s[..|name| + 1]) == name && Trim(s[|name| + 2..]) == value
  {
    var s, left, right := name + " = " + value, name + " ", " " + value;
    assert s[|s| - 1] == value[|value| - 1];
    TrimNothing(s);
    assert s == left + ['='] + right;
    IndexOfPrefix(left, '=', right);
    assert s[..|name| + 1] == left && s[|name| + 2..] == right;
    assert left[..|name|] == name && right[1..] == value;
    assert TrimLeft(left) == left && TrimRight(left) == TrimRight(name);
    assert TrimLeft(right) == TrimLeft(value);
    TrimNothing(name);
    TrimNothing(value);
  }

  lemma {:induction false} WordEndAt(word: string, rest: string)
    requires forall i :: 0 <= i < |word| ==> !IsSpace(word[i])
    requires rest == "" || IsSpace(rest[0])
    ensures WordEnd(word + rest) == |word|
  {
    if word != "" {
      assert (word + rest)[1..] == word[1..] + rest;
      WordEndAt(word[1..], rest);
    }
  }

  lemma {:induction false} NoBlanks(s: string)
    requires ' ' !in s
    ensures WithoutBlanks(s) == s
  {
    if s != "" {
      NoBlanks(s[1..]);
    }
  }

  /** The one line an enrolled peer section is read from. */
  lemma PeerLine(net: Net, key: string, ip: string)
    requires IsKey(key) && net.canonical(ip) && Plain(ip) && ',' !in ip && ip != "(none)"
    ensures ParsePeers(net, key + " " + WithoutBlanks(ip)) == Some(map[key := [ip]])
  {
    NoBlanks(ip);
    var s := key + " " + ip;
    assert s[|s| - 1] == ip[|ip| - 1];
    TrimNothing(s);
    assert '\n' !in s;
    IndexOfPrefix(s, '\n', []);
    TwoFields(key, ip);
    assert Concat([ip]) == ip + Concat([]) == ip;
    IndexOfPrefix(ip, ',', []);
    assert [key, ip][1..] == [ip] && [ip][1..] == [] && [s][1..] == [];
    assert PeerLines(net, [s], map[]) == PeerLines(net, [], map[][key := [ip]]);
  }

  lemma TwoFields(a: string, b: string)
    requires Plain(a) && Plain(b)
    ensures Fields(a + " " + b) == [a, b]
  {
    var s, rest := a + " " + b, " " + b;
    assert s == a + rest;
    WordEndAt(a, rest);
    assert s[..|a|] == a && s[|a|..] == rest && rest[1..] == b;
    WordEndAt(b, "");
    assert b + "" == b && b[..|b|] == b && b[|b|..] == "";
    assert Fields(b) == [b] + Fields("");
    assert Fields(rest) == Fields(b);
  }

  /**
   Appending the block to an accepted configuration: refused when the key is already there, otherwise
   accepted with exactly that peer added; whether the old text ends in a newline makes no difference.
   */
  lemma AppendAddsPeer(net: Net, text: string, key: string)
    requires IsKey(key) && net.canonical(CIDR) && Persistent(net, text).Some?
    ensures var peers := Persistent(net, text).value;
            Persistent(net, text + Block(key)) == if key in peers then None else Some(peers[key := [CIDR]])
  {
    var st := Lines(net, START, Split(text, '\n')).value;
    var peers := Flush(net, st).value;
    AppendLines(net, text, key, st, peers);
    CidrLine(net, key);
  }

  lemma AppendLines(net: Net, text: string, key: string, st: Scan, peers: Peers)
    requires IsKey(key) && st.interfaceSeen
    requires Lines(net, START, Split(text, '\n')) == Some(st) && Flush(net, st) == Some(peers)
    ensures Lines(net, START, Split(text + Block(key), '\n')) == Some(Scan(Peer, true, key, CIDR, peers))
  {
    NoNewlines(key);
    BlockLines(text, "[Peer]", KeyLine(key), IpsLine());
    BlockScan(net, st, peers, key);
    AppendScan(net, text, Block(key), ["[Peer]", KeyLine(key), IpsLine(), ""], st, Scan(Peer, true, key, CIDR, peers));
  }

  lemma CidrLine(net: Net, key: string)
    requires IsKey(key) && net.canonical(CIDR)
    ensures ParsePeers(net, key + " " + WithoutBlanks(CIDR)) == Some(map[key := [CIDR]])
  {
    assert CIDR[0] == '1' && ',' !in CIDR;
    PeerLine(net, key, CIDR);
  }

  lemma AppendScan(net: Net, text: string, block: string, lines: seq<string>, st: Scan, end: Scan)
    requires Split(text + block, '\n') == Split(text, '\n') + lines
    requires Lines(net, START, Split(text, '\n')) == Some(st) && Lines(net, st, lines) == Some(end)
    ensures Lines(net, START, Split(text + block, '\n')) == Some(end)
  {
    LinesAppend(net, START, Split(text, '\n'), lines);
  }

  lemma BlockScan(net: Net, st: Scan, peers: Peers, key: string)
    requires Flush(net, st) == Some(peers) && st.interfaceSeen && IsKey(key)
    ensures Lines(net, st, ["[Peer]", KeyLine(key), IpsLine(), ""]) == Some(Scan(Peer, true, key, CIDR, peers))
  {
    var started := Scan(Peer, true, "", "", peers);
    var keyed := started.(key := key);
    var full := keyed.(ips := CIDR);
    HeaderScan(net, st, peers);
    KeyScan(net, started, key);
    IpsScan(net, keyed);
    assert Line(net, full, "") == Some(full);
    FourSteps(net, st, started, keyed, full, ["[Peer]", KeyLine(key), IpsLine(), ""]);
  }

  lemma HeaderScan(net: Net, st: Scan, peers: Peers)
    requires Flush(net, st) == Some(peers) && st.interfaceSeen
    ensures Line(net, st, "[Peer]") == Some(Scan(Peer, true, "", "", peers))
  {
    TrimNothing("[Peer]");
  }

  lemma KeyScan(net: Net, st: Scan, key: string)
    requires IsKey(key) && st.section == Peer && st.key == ""
    ensures Line(net, st, KeyLine(key)) == Some(st.(key := key))
  {
    Assignment("PublicKey", key);
  }

  lemma IpsScan(net: Net, st: Scan)
    requires st.section == Peer && st.ips == ""
    ensures Line(net, st, IpsLine()) == Some(st.(ips := CIDR))
  {
    Assignment("AllowedIPs", CIDR);
  }

  lemma FourSteps(net: Net, s0: Scan, s1: Scan, s2: Scan, s3: Scan, lines: seq<string>)
    requires |lines| == 4 && Line(net, s0, lines[0]) == Some(s1) && Line(net, s1, lines[1]) == Some(s2)
    requires Line(net, s2, lines[2]) == Some(s3) && Line(net, s3, lines[3]) == Some(s3)
    ensures Lines(net, s0, lines) == Some(s3)
  {
    assert lines[1..][0] == lines[1] && lines[1..][1..] == lines[2..];
    assert lines[2..][0] == lines[2] && lines[2..][1..] == lines[3..];
    assert lines[3..][0] == lines[3] && lines[3..][1..] == [];
    assert Lines(net, s3, lines[3..]) == Lines(net, s3, []);
    assert Lines(net, s2, lines[2..]) == Lines(net, s3, lines[3..]);
    assert Lines(net, s1, lines[1..]) == Lines(net, s2, lines[2..]);
  }
}
