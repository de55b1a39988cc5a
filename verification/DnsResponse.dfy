/** The response parser, and the responses it accepts. */
module DnsResponse {
  import opened Bytes
  import opened DnsName
  import opened Dns

  datatype Result = Result(filter: bool, rcode: nat)

  /** An option inside OPT. An extended error blocks when it says 15 (blocked) or 17 (filtered). */
  datatype RawOption = RawOption(code: nat, data: seq<Byte>)

  type EdnsOption = o: RawOption | o.code < 0x1_0000 && |o.data| < 0x1_0000 witness RawOption(0, [])

  predicate Blocks(o: EdnsOption) {
    o.code == 15 && |o.data| >= 2 && (U16(o.data, 0) == 15 || U16(o.data, 0) == 17)
  }

  predicate AnyBlocks(options: seq<EdnsOption>) {
    exists i :: 0 <= i < |options| && Blocks(options[i])
  }

  /** Whether some option in data[pos..end] blocks; None when the options do not fill the range exactly. */
  function OptionsFrom(data: seq<Byte>, pos: nat, end: nat): Option<bool>
    requires end <= |data|
    decreases end - pos
  {
    if pos >= end then Some(false)
    else if pos + 4 > end then None
    else
      var n := U16(data, pos + 2);
      if pos + 4 + n > end then None
      else
        match OptionsFrom(data, pos + 4 + n, end)
        case None => None
        case Some(later) => Some(Blocks(RawOption(U16(data, pos), data[pos + 4..pos + 4 + n])) || later)
  }

  datatype Scan = Scan(end: nat, opt: bool, filtered: bool)

  /** One resource record; OPT is allowed once, at the root, among the additional records, with version 0. */
  function RecordAt(data: seq<Byte>, off: nat, additional: bool, opt: bool): (r: Option<Scan>)
    ensures r.Some? ==> r.value.end <= |data|
  {
    match Decoded(data, off)
    case None => None
    case Some((name, next)) =>
      if next + 10 > |data| || next + 10 + U16(data, next + 8) > |data| then None
      else
        var body, end := next + 10, next + 10 + U16(data, next + 8);
        if U16(data, next) != 41 then Some(Scan(end, opt, false))
        else if opt || name != [] || !additional || U16(data, next + 4) != 0 then None
        else
          match OptionsFrom(data, body, end)
          case None => None
          case Some(blocked) => Some(Scan(end, true, blocked))
  }

  /** n records from off on, of which the first ones may not be OPT. */
  function Records(data: seq<Byte>, off: nat, n: nat, plain: int, opt: bool): Option<Scan>
    decreases n
  {
    if n == 0 then Some(Scan(off, opt, false))
    else
      match RecordAt(data, off, plain <= 0, opt)
      case None => None
      case Some(one) =>
        match Records(data, one.end, n - 1, plain - 1, one.opt)
        case None => None
        case Some(rest) => Some(rest.(filtered := one.filtered || rest.filtered))
  }

  /** What is accepted: one Internet address question for the domain, then records that end the message. */
  function Parsed(data: seq<Byte>, id: nat, domain: seq<Byte>): Option<Result> {
    match HeadOf(data, id)
    case None => None
    case Some(h) => BodyParsed(data, h, domain)
  }

  /**
   What the header says: how many records there are, how many of them come before the additional ones, and the code.
   */
  datatype Head = Head(records: nat, before: nat, rcode: nat)

  /**
   The header of a response to this query: one question, at most 128 records, and none of the bits that are refused.
   */
  function HeadOf(data: seq<Byte>, id: nat): (h: Option<Head>)
    ensures h.Some? ==> |data| >= 12
  {
    if |data| < 12 || U16(data, 0) != id then None
    else
      var flags, an, ns, ar := U16(data, 2), U16(data, 6), U16(data, 8), U16(data, 10);
      if BitAnd(flags, 0x8000) == 0 || BitAnd(flags, 0x7a40) != 0 || U16(data, 4) != 1 || an + ns + ar > 128 then None
      else Some(Head(an + ns + ar, an + ns, BitAnd(flags, 15)))
  }

  function BodyParsed(data: seq<Byte>, h: Head, domain: seq<Byte>): Option<Result>
    requires |data| >= 12
  {
    match Decoded(data, 12)
    case None => None
    case Some((name, off)) =>
      if name != ToLower(domain) || off + 4 > |data| || U16(data, off) != 1 || U16(data, off + 2) != 1 then None
      else
        match Records(data, off + 4, h.records, h.before, false)
        case None => None
        case Some(s) => if s.end != |data| then None else Some(Result(s.filtered, h.rcode))
  }

  method ScanOptions(data: seq<Byte>, start: nat, end: nat, already: bool) returns (ok: bool, filtered: bool)
    requires start <= end <= |data|
    ensures ok <==> OptionsFrom(data, start, end).Some?
    ensures ok ==> filtered == (already || OptionsFrom(data, start, end).value)
  {
    filtered := already;
    var pos := start;
    while pos < end
      invariant start <= pos <= end
      invariant OptionsFrom(data, start, end).Some? <==> OptionsFrom(data, pos, end).Some?
      invariant OptionsFrom(data, pos, end).Some? ==>
                  (already || OptionsFrom(data, start, end).value) == (filtered || OptionsFrom(data, pos, end).value)
    {
      if pos + 4 > end {
        return false, filtered;
      }
      var code, n := U16(data, pos), U16(data, pos + 2);
      ghost var here := pos;
      pos := pos + 4;
      if pos + n > end {
        return false, filtered;
      }
      if code == 15 && n >= 2 {
        var ede := U16(data, pos);
        assert data[pos..pos + n][0] == data[pos] && data[pos..pos + n][1] == data[pos + 1];
        filtered := filtered || ede == 15 || ede == 17;
      }
      pos := pos + n;
    }
    ok := true;
  }

  method ReadRecord(data: seq<Byte>, start: nat, additional: bool, seenOpt: bool, already: bool)
    returns (ok: bool, end: nat, opt: bool, filtered: bool)
    ensures ok <==> RecordAt(data, start, additional, seenOpt).Some?
    ensures ok ==> var s := RecordAt(data, start, additional, seenOpt).value;
                   end == s.end && opt == s.opt && filtered == (already || s.filtered)
  {
    ok, end, opt, filtered := false, 0, seenOpt, already;
    var owner := DecodeName(data, start);
    if owner.None? || owner.value.1 + 10 > |data| {
      return;
    }
    var off := owner.value.1;
    var typ, ttlHigh, length := U16(data, off), U16(data, off + 4), U16(data, off + 8);
    off := off + 10;
    end := off + length;
    if end > |data| {
      return;
    }
    if typ == 41 {
      if opt || owner.value.0 != [] || !additional || ttlHigh != 0 {
        return;
      }
      opt := true;
      ok, filtered := ScanOptions(data, off, end, filtered);
    } else {
      ok := true;
    }
  }

  /** Scanning on from off with what is known so far gives what the whole scan gives. */
  predicate SameScan(whole: Option<Scan>, left: Option<Scan>, filtered: bool) {
    && (whole.Some? <==> left.Some?)
    && (left.Some? ==> whole.value.end == left.value.end && whole.value.filtered == (filtered || left.value.filtered))
  }

  /** One more record of a scan. */
  method ReadNext(ghost whole: Option<Scan>, data: seq<Byte>, start: nat, ghost n: nat, ghost plain: int,
                  additional: bool, seenOpt: bool, already: bool)
    returns (ok: bool, end: nat, opt: bool, filtered: bool)
    requires n > 0 && additional == (plain <= 0)
    requires SameScan(whole, Records(data, start, n, plain, seenOpt), already)
    ensures ok ==> SameScan(whole, Records(data, end, n - 1, plain - 1, opt), filtered)
    ensures !ok ==> whole.None?
  {
    NextRecord(whole, data, start, n, plain, seenOpt, already);
    ok, end, opt, filtered := ReadRecord(data, start, additional, seenOpt, already);
  }

  method ReadRecords(data: seq<Byte>, start: nat, n: nat, plain: nat) returns (ok: bool, end: nat, filtered: bool)
    ensures ok <==> Records(data, start, n, plain, false).Some?
    ensures ok ==> end == Records(data, start, n, plain, false).value.end
    ensures ok ==> filtered == Records(data, start, n, plain, false).value.filtered
  {
    ok, end, filtered := false, start, false;
    var opt, i := false, 0;
    ghost var whole, left: nat, before: int := Records(data, start, n, plain, false), n, plain;
    while i < n
      invariant 0 <= i <= n && left == n - i && before == plain - i
      invariant SameScan(whole, Records(data, end, left, before, opt), filtered)
    {
      ok, end, opt, filtered := ReadNext(whole, data, end, left, before, i >= plain, opt, filtered);
      if !ok {
        return;
      }
      i, left, before := i + 1, left - 1, before - 1;
    }
    ok := true;
    ScanEnds(whole, data, end, before, opt, filtered);
  }

  lemma ScanEnds(whole: Option<Scan>, data: seq<Byte>, end: nat, plain: int, opt: bool, filtered: bool)
    requires SameScan(whole, Records(data, end, 0, plain, opt), filtered)
    ensures whole.Some? && whole.value.end == end && whole.value.filtered == filtered
  {
  }

  lemma NextRecord(whole: Option<Scan>, data: seq<Byte>, end: nat, n: nat, plain: int, opt: bool, filtered: bool)
    requires n > 0 && SameScan(whole, Records(data, end, n, plain, opt), filtered)
    ensures var one := RecordAt(data, end, plain <= 0, opt);
            if one.None? then whole.None?
            else SameScan(whole, Records(data, one.value.end, n - 1, plain - 1, one.value.opt),
                          filtered || one.value.filtered)
  {
  }

  method ParseDns(data: seq<Byte>, id: nat, domain: seq<Byte>) returns (r: Option<Result>)
    ensures r == Parsed(data, id, domain)
  {
    var head := ReadHead(data, id);
    if head.None? {
      return None;
    }
    r := ParseBody(data, head.value, domain);
  }

  method ReadHead(data: seq<Byte>, id: nat) returns (h: Option<Head>)
    ensures h == HeadOf(data, id)
  {
    if |data| < 12 || U16(data, 0) != id {
      return None;
    }
    var flags, qd, an, ns, ar := U16(data, 2), U16(data, 4), U16(data, 6), U16(data, 8), U16(data, 10);
    if BitAnd(flags, 0x8000) == 0 || BitAnd(flags, 0x7a40) != 0 || qd != 1 || an + ns + ar > 128 {
      return None;
    }
    return Some(Head(an + ns + ar, an + ns, BitAnd(flags, 15)));
  }

  method ParseBody(data: seq<Byte>, h: Head, domain: seq<Byte>) returns (r: Option<Result>)
    requires |data| >= 12
    ensures r == BodyParsed(data, h, domain)
  {
    var question := DecodeName(data, 12);
    if question.None? || question.value.0 != ToLower(domain) || question.value.1 + 4 > |data| {
      return None;
    }
    var off := question.value.1;
    if U16(data, off) != 1 || U16(data, off + 2) != 1 {
      return None;
    }
    var ok, end, filtered := ReadRecords(data, off + 4, h.records, h.before);
    if !ok || end != |data| {
      return None;
    }
    return Some(Result(filtered, h.rcode));
  }

  // ----- options

  function OptionBytes(options: seq<EdnsOption>): seq<Byte>
  {
    if options == [] then []
    else Put16(options[0].code) + Put16(|options[0].data|) + options[0].data + OptionBytes(options[1..])
  }

  lemma {:induction false} OptionsScan(data: seq<Byte>, pos: nat, options: seq<EdnsOption>)
    requires pos + |OptionBytes(options)| <= |data|
    requires data[pos..pos + |OptionBytes(options)|] == OptionBytes(options)
    ensures OptionsFrom(data, pos, pos + |OptionBytes(options)|) ==
            Some(AnyBlocks(options))
    decreases |options|
  {
    if options != [] {
      var o, rest := options[0], OptionBytes(options[1..]);
      OptionHead(data, pos, o, rest);
      OptionsScan(data, pos + 4 + |o.data|, options[1..]);
      BlocksFirst(options);
    }
  }

  /** Options are accepted only where whole options fill the range, and are then read as just those. */
  lemma {:induction false} OptionsAreWhole(data: seq<Byte>, pos: nat, end: nat)
    requires pos <= end <= |data|
    ensures OptionsFrom(data, pos, end).Some? <==> exists options :: OptionBytes(options) == data[pos..end]
    ensures forall options :: OptionBytes(options) == data[pos..end] ==>
              OptionsFrom(data, pos, end) == Some(AnyBlocks(options))
    decreases end - pos
  {
    forall options | OptionBytes(options) == data[pos..end]
      ensures OptionsFrom(data, pos, end) == Some(AnyBlocks(options))
    {
      OptionsScan(data, pos, options);
    }
    if OptionsFrom(data, pos, end).Some? {
      if pos == end {
        assert OptionBytes([]) == data[pos..end];
      } else {
        var n := U16(data, pos + 2);
        var next := pos + 4 + n;
        OptionsAreWhole(data, next, end);
        var rest :| OptionBytes(rest) == data[next..end];
        OptionBefore(data, pos, end, RawOption(U16(data, pos), data[pos + 4..next]), rest);
      }
    }
  }

  lemma OptionBefore(data: seq<Byte>, pos: nat, end: nat, o: EdnsOption, rest: seq<EdnsOption>)
    requires pos + 4 + |o.data| <= end <= |data| && U16(data, pos) == o.code && U16(data, pos + 2) == |o.data|
    requires data[pos + 4..pos + 4 + |o.data|] == o.data && OptionBytes(rest) == data[pos + 4 + |o.data|..end]
    ensures OptionBytes([o] + rest) == data[pos..end]
  {
    var n := |o.data|;
    assert ([o] + rest)[1..] == rest;
    SameU16(data, pos, Put16(o.code), 0);
    SameU16(data, pos + 2, Put16(n), 0);
    assert Put16(o.code)[0..2] == Put16(o.code) && Put16(n)[0..2] == Put16(n);
    assert data[pos..end] == data[pos..pos + 2] + data[pos + 2..pos + 4] + data[pos + 4..pos + 4 + n]
                             + data[pos + 4 + n..end];
  }

  lemma BlocksFirst(options: seq<EdnsOption>)
    requires options != []
    ensures AnyBlocks(options) <==> Blocks(options[0]) || AnyBlocks(options[1..])
  {
    assert forall i :: 1 <= i < |options| ==> options[i] == options[1..][i - 1];
    if AnyBlocks(options[1..]) {
      var i :| 0 <= i < |options[1..]| && Blocks(options[1..][i]);
      assert Blocks(options[i + 1]);
    }
  }

  lemma OptionHead(data: seq<Byte>, pos: nat, o: EdnsOption, rest: seq<Byte>)
    requires pos + 4 + |o.data| + |rest| <= |data|
    requires data[pos..pos + 4 + |o.data| + |rest|] == Put16(o.code) + Put16(|o.data|) + o.data + rest
    ensures U16(data, pos) == o.code && U16(data, pos + 2) == |o.data|
    ensures data[pos + 4..pos + 4 + |o.data|] == o.data
    ensures data[pos + 4 + |o.data|..pos + 4 + |o.data| + |rest|] == rest
  {
    var n := |o.data|;
    var end := pos + 4 + n + |rest|;
    var all := data[pos..end];
    assert all[0..2] == Put16(o.code) && all[2..4] == Put16(n);
    assert all[4..4 + n] == o.data && all[4 + n..4 + n + |rest|] == rest;
    Slices(data, pos, end, 0, 2);
    Slices(data, pos, end, 2, 4);
    Slices(data, pos, end, 4, 4 + n);
    Slices(data, pos, end, 4 + n, 4 + n + |rest|);
    Read16(data, pos, o.code);
    Read16(data, pos + 2, n);
  }

  lemma TypeAndClass(data: seq<Byte>, off: nat)
    requires off + 4 <= |data| && data[off..off + 4] == INTERNET
    ensures U16(data, off) == 1 && U16(data, off + 2) == 1
  {
    assert INTERNET[0..2] == Put16(1) && INTERNET[2..4] == Put16(1);
    Slices(data, off, off + 4, 0, 2);
    Slices(data, off, off + 4, 2, 4);
    Read16(data, off, 1);
    Read16(data, off + 2, 1);
  }
}
