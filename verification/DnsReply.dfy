/** Responses built from their records: which are accepted, and what is reported of them. */
module DnsReply {
  import opened Bytes
  import opened Text
  import opened DnsName
  import opened Dns
  import opened DnsResponse

  /** The owner of a record: labels, then the end of the name or a pointer to the name in the question. */
  datatype Owner = Owner(labels: seq<Label>, compressed: bool)

  /** A record of any type but OPT, or an OPT record at the root. */
  datatype Item =
    | Plain(owner: Owner, typ: nat, class_: nat, ttl: nat, data: seq<Byte>)
    | Opt(size: nat, version: nat, bits: nat, options: seq<EdnsOption>)

  /** Field widths; the labels are printable and not empty. */
  predicate Sized(item: Item) {
    match item
    case Plain(owner, typ, class_, ttl, data) =>
      && (forall i :: 0 <= i < |owner.labels| ==> WireLabel(owner.labels[i]))
      && typ < 0x1_0000 && typ != 41 && class_ < 0x1_0000 && ttl < 0x1_0000_0000 && |data| < 0x1_0000
    case Opt(size, version, bits, options) =>
      size < 0x1_0000 && version < 0x1_0000 && bits < 0x1_0000 && |OptionBytes(options)| < 0x1_0000
  }

  type Record = i: Item | Sized(i) witness Opt(0, 0, 0, [])

  function OwnerBytes(o: Owner): seq<Byte> {
    Wire(o.labels) + if o.compressed then [192, 12] else [0]
  }

  function FixedBytes(typ: nat, class_: nat, ttl: nat, data: seq<Byte>): seq<Byte>
    requires typ < 0x1_0000 && class_ < 0x1_0000 && ttl < 0x1_0000_0000 && |data| < 0x1_0000
  {
    Put16(typ) + Put16(class_) + Put32(ttl) + Put16(|data|) + data
  }

  function RecordBytes(r: Record): seq<Byte> {
    match r
    case Plain(owner, typ, class_, ttl, data) => OwnerBytes(owner) + FixedBytes(typ, class_, ttl, data)
    case Opt(size, version, bits, options) =>
      [0] + FixedBytes(41, size, version * 0x1_0000 + bits, OptionBytes(options))
  }

  function Encoded(records: seq<Record>): seq<seq<Byte>> {
    seq(|records|, i requires 0 <= i < |records| => RecordBytes(records[i]))
  }

  function Concat(pieces: seq<seq<Byte>>): seq<Byte> {
    if pieces == [] then [] else pieces[0] + Concat(pieces[1..])
  }

  // ----- names

  /** The name a compressed or plain owner stands for. */
  function FullName(o: Owner, asked: seq<Label>): seq<Label> {
    o.labels + if o.compressed then asked else []
  }

  /** At most 253 bytes, and at most 128 labels, pointers and terminators. */
  predicate OwnerFits(o: Owner, asked: seq<Label>) {
    && |JoinDots(FullName(o, asked))| <= 253
    && |FullName(o, asked)| + (if o.compressed then 1 else 0) < 128
  }

  /** Labels are read one after the other, and then whatever follows them. */
  lemma {:induction false} LabelsThenRest(data: seq<Byte>, off: nat, labels: seq<Label>, end: nat, left: nat)
    requires forall i :: 0 <= i < |labels| ==> WireLabel(labels[i])
    requires end == off + |Wire(labels)| < |data| && data[off..end] == Wire(labels)
    ensures NameAt(data, off, |labels| + left) == Prepend(labels, -1, NameAt(data, end, left))
    decreases |labels|
  {
    if labels == [] {
      PrependNothing(NameAt(data, off, left));
    } else {
      var next := AfterFirst(data, off, labels, end);
      LabelsThenRest(data, next, labels[1..], end, left);
      LabelThenRest(data, off, labels, end, |labels| + left, next, NameAt(data, end, left));
    }
  }

  lemma AfterFirst(data: seq<Byte>, off: nat, labels: seq<Label>, end: nat) returns (next: nat)
    requires labels != [] && end == off + |Wire(labels)| < |data| && data[off..end] == Wire(labels)
    ensures next == off + 1 + |labels[0]| && end == next + |Wire(labels[1..])| && data[next..end] == Wire(labels[1..])
  {
    next := off + 1 + |labels[0]|;
    WireHead(data, off, labels);
  }

  lemma LabelThenRest(data: seq<Byte>, off: nat, labels: seq<Label>, end: nat, steps: nat, next: nat,
                      rest: Option<Name>)
    requires labels != [] && steps > 0 && WireLabel(labels[0]) && next == off + 1 + |labels[0]|
    requires end == off + |Wire(labels)| < |data| && data[off..end] == Wire(labels)
    requires NameAt(data, next, steps - 1) == Prepend(labels[1..], -1, rest)
    ensures NameAt(data, off, steps) == Prepend(labels, -1, rest)
  {
    WireHead(data, off, labels);
    LabelStep(data, off, |labels[0]|, steps);
    PrependFirst(labels, rest);
  }

  lemma {:induction false} TooManyLabels(data: seq<Byte>, off: nat, labels: seq<Label>, end: nat, steps: nat)
    requires forall i :: 0 <= i < |labels| ==> WireLabel(labels[i])
    requires end == off + |Wire(labels)| < |data| && data[off..end] == Wire(labels) && steps < |labels|
    ensures NameAt(data, off, steps).None?
    decreases steps
  {
    if steps > 0 {
      var next := AfterFirst(data, off, labels, end);
      TooManyLabels(data, next, labels[1..], end, steps - 1);
      LabelThenNone(data, off, labels, end, steps, next);
    }
  }

  lemma LabelThenNone(data: seq<Byte>, off: nat, labels: seq<Label>, end: nat, steps: nat, next: nat)
    requires labels != [] && steps > 0 && WireLabel(labels[0]) && next == off + 1 + |labels[0]|
    requires end == off + |Wire(labels)| < |data| && data[off..end] == Wire(labels)
    requires NameAt(data, next, steps - 1).None?
    ensures NameAt(data, off, steps).None?
  {
    WireHead(data, off, labels);
    LabelStep(data, off, |labels[0]|, steps);
  }

  lemma PrependFirst(labels: seq<Label>, rest: Option<Name>)
    requires labels != []
    ensures WithLabel(labels[0], Prepend(labels[1..], -1, rest)) == Prepend(labels, -1, rest)
  {
    assert labels == [labels[0]] + labels[1..];
    if rest.Some? {
      assert [labels[0]] + (labels[1..] + rest.value.labels) == labels + rest.value.labels;
    }
  }

  /** The name in the question, at offset 12. */
  ghost predicate Asked(data: seq<Byte>, asked: seq<Label>) {
    forall steps: nat ::
      NameAt(data, 12, steps) ==
      if steps > |asked| then Some(Name(asked, 13 + |Wire(asked)|)) else None
  }

  /** An owner ends the name, or points to the name in the question. */
  lemma OwnerEnds(data: seq<Byte>, off: nat, compressed: bool, asked: seq<Label>, steps: nat)
    requires Asked(data, asked) && off + (if compressed then 2 else 1) <= |data|
    requires if compressed then data[off] == 192 && data[off + 1] == 12 else data[off] == 0
    ensures NameAt(data, off, steps) ==
            if compressed then if steps > |asked| + 1 then Some(Name(asked, off + 2)) else None
            else if steps > 0 then Some(Name([], off + 1)) else None
  {
    if compressed && steps > 0 {
      PointerStep(data, off, steps);
    }
  }

  lemma OwnerBytesAt(data: seq<Byte>, off: nat, o: Owner)
    requires off + |OwnerBytes(o)| <= |data| && data[off..off + |OwnerBytes(o)|] == OwnerBytes(o)
    ensures var end := off + |Wire(o.labels)|;
            && end < |data| && data[off..end] == Wire(o.labels)
            && (if o.compressed then end + 2 == off + |OwnerBytes(o)| && data[end] == 192 && data[end + 1] == 12
                else end + 1 == off + |OwnerBytes(o)| && data[end] == 0)
  {
    var w, all := Wire(o.labels), data[off..off + |OwnerBytes(o)|];
    assert all[0..|w|] == w;
    Slices(data, off, off + |all|, 0, |w|);
    assert data[off + |w|] == all[|w|];
    assert o.compressed ==> data[off + |w| + 1] == all[|w| + 1];
  }

  lemma OwnerNamed(data: seq<Byte>, off: nat, o: Owner, asked: seq<Label>, end: nat, steps: nat)
    requires Asked(data, asked) && forall i :: 0 <= i < |o.labels| ==> WireLabel(o.labels[i])
    requires end == off + |Wire(o.labels)| < |data| && data[off..end] == Wire(o.labels)
    requires if o.compressed then end + 2 <= |data| && data[end] == 192 && data[end + 1] == 12 else data[end] == 0
    ensures NameAt(data, off, steps) ==
            if steps > |o.labels| + (if o.compressed then |asked| + 1 else 0)
            then Some(Name(FullName(o, asked), if o.compressed then end + 2 else end + 1))
            else None
  {
    if steps < |o.labels| {
      TooManyLabels(data, off, o.labels, end, steps);
    } else {
      OwnerInSteps(data, off, o, asked, end, steps - |o.labels|);
    }
  }

  lemma OwnerInSteps(data: seq<Byte>, off: nat, o: Owner, asked: seq<Label>, end: nat, left: nat)
    requires Asked(data, asked) && forall i :: 0 <= i < |o.labels| ==> WireLabel(o.labels[i])
    requires end == off + |Wire(o.labels)| < |data| && data[off..end] == Wire(o.labels)
    requires if o.compressed then end + 2 <= |data| && data[end] == 192 && data[end + 1] == 12 else data[end] == 0
    ensures NameAt(data, off, |o.labels| + left) ==
            if left > (if o.compressed then |asked| + 1 else 0)
            then Some(Name(FullName(o, asked), if o.compressed then end + 2 else end + 1))
            else None
  {
    LabelsThenRest(data, off, o.labels, end, left);
    OwnerEnds(data, end, o.compressed, asked, left);
  }

  /** An owner, wherever it lies, is its full name, exactly when that name is not too long. */
  lemma OwnerDecodes(data: seq<Byte>, off: nat, o: Owner, asked: seq<Label>)
    requires Asked(data, asked) && forall i :: 0 <= i < |o.labels| ==> WireLabel(o.labels[i])
    requires off + |OwnerBytes(o)| <= |data| && data[off..off + |OwnerBytes(o)|] == OwnerBytes(o)
    ensures Decoded(data, off) ==
            if OwnerFits(o, asked) then Some((LowerAll(JoinDots(FullName(o, asked))), off + |OwnerBytes(o)|)) else None
  {
    OwnerBytesAt(data, off, o);
    OwnerNamed(data, off, o, asked, off + |Wire(o.labels)|, STEPS);
  }

  // ----- records

  lemma FixedFields(data: seq<Byte>, off: nat, typ: nat, class_: nat, ttl: nat, d: seq<Byte>)
    requires typ < 0x1_0000 && class_ < 0x1_0000 && ttl < 0x1_0000_0000 && |d| < 0x1_0000
    requires off + 10 + |d| <= |data| && data[off..off + 10 + |d|] == FixedBytes(typ, class_, ttl, d)
    ensures U16(data, off) == typ && U16(data, off + 4) == ttl / 0x1_0000 && U16(data, off + 8) == |d|
    ensures data[off + 10..off + 10 + |d|] == d
  {
    var n := |d|;
    var all := data[off..off + 10 + n];
    assert all[0..2] == Put16(typ) && all[4..6] == Put16(ttl / 0x1_0000) && all[8..10] == Put16(n);
    assert all[10..10 + n] == d;
    Slices(data, off, off + 10 + n, 0, 2);
    Slices(data, off, off + 10 + n, 4, 6);
    Slices(data, off, off + 10 + n, 8, 10);
    Slices(data, off, off + 10 + n, 10, 10 + n);
    Read16(data, off, typ);
    Read16(data, off + 4, ttl / 0x1_0000);
    Read16(data, off + 8, n);
  }

  /** A record that is accepted by itself: a plain one under a name that fits, or OPT in version 0. */
  predicate Fits(r: Item, asked: seq<Label>) {
    match r
    case Plain(owner, _, _, _, _) => OwnerFits(owner, asked)
    case Opt(_, version, _, _) => version == 0
  }

  predicate Filters(r: Item) {
    r.Opt? && AnyBlocks(r.options)
  }

  lemma PlainFields(data: seq<Byte>, off: nat, r: Record)
    requires r.Plain?
    requires off + |RecordBytes(r)| <= |data| && data[off..off + |RecordBytes(r)|] == RecordBytes(r)
    ensures var o := OwnerBytes(r.owner);
            && |RecordBytes(r)| == |o| + 10 + |r.data| && data[off..off + |o|] == o
            && U16(data, off + |o|) == r.typ && U16(data, off + |o| + 8) == |r.data|
  {
    var o, f := OwnerBytes(r.owner), FixedBytes(r.typ, r.class_, r.ttl, r.data);
    TwoParts(data, off, o, f);
    FixedFields(data, off + |o|, r.typ, r.class_, r.ttl, r.data);
  }

  lemma PlainAt(data: seq<Byte>, off: nat, r: Record, asked: seq<Label>, additional: bool, opt: bool)
    requires r.Plain? && Asked(data, asked)
    requires off + |RecordBytes(r)| <= |data| && data[off..off + |RecordBytes(r)|] == RecordBytes(r)
    ensures RecordAt(data, off, additional, opt) ==
            if Fits(r, asked) then Some(Scan(off + |RecordBytes(r)|, opt, false)) else None
  {
    PlainFields(data, off, r);
    OwnerDecodes(data, off, r.owner, asked);
    var name := LowerAll(JoinDots(FullName(r.owner, asked)));
    OtherType(data, off, name, off + |OwnerBytes(r.owner)|, |r.data|, additional, opt, Fits(r, asked));
  }

  /** A record of another type only moves on, when its owner is a name. */
  lemma OtherType(data: seq<Byte>, off: nat, name: seq<Byte>, next: nat, n: nat, additional: bool, opt: bool,
                  named: bool)
    requires Decoded(data, off) == (if named then Some((name, next)) else None) && next + 10 + n <= |data|
    requires U16(data, next) != 41 && U16(data, next + 8) == n
    ensures RecordAt(data, off, additional, opt) == if named then Some(Scan(next + 10 + n, opt, false)) else None
  {
  }

  lemma TwoParts(data: seq<Byte>, off: nat, a: seq<Byte>, b: seq<Byte>)
    requires off + |a| + |b| <= |data| && data[off..off + |a| + |b|] == a + b
    ensures data[off..off + |a|] == a && data[off + |a|..off + |a| + |b|] == b
  {
    assert (a + b)[0..|a|] == a && (a + b)[|a|..|a| + |b|] == b;
    Slices(data, off, off + |a| + |b|, 0, |a|);
    Slices(data, off, off + |a| + |b|, |a|, |a| + |b|);
  }

  lemma OptAt(data: seq<Byte>, off: nat, r: Record, additional: bool, opt: bool)
    requires r.Opt?
    requires off + |RecordBytes(r)| <= |data| && data[off..off + |RecordBytes(r)|] == RecordBytes(r)
    ensures RecordAt(data, off, additional, opt) ==
            if opt || !additional || r.version != 0 then None
            else Some(Scan(off + |RecordBytes(r)|, true, Filters(r)))
  {
    var body := OptionBytes(r.options);
    OptFields(data, off, r, body);
    RootDecodes(data, off);
    OptionsScan(data, off + 11, r.options);
    OptType(data, off, |body|, additional, opt, AnyBlocks(r.options));
  }

  lemma OptFields(data: seq<Byte>, off: nat, r: Record, body: seq<Byte>)
    requires r.Opt? && body == OptionBytes(r.options)
    requires off + |RecordBytes(r)| <= |data| && data[off..off + |RecordBytes(r)|] == RecordBytes(r)
    ensures |RecordBytes(r)| == 11 + |body| && data[off] == 0 && U16(data, off + 1) == 41
    ensures U16(data, off + 5) == r.version && U16(data, off + 9) == |body|
    ensures data[off + 11..off + 11 + |body|] == body
  {
    var ttl := r.version * 0x1_0000 + r.bits;
    TwoParts(data, off, [0], FixedBytes(41, r.size, ttl, body));
    assert data[off] == data[off..off + 1][0];
    FixedFields(data, off + 1, 41, r.size, ttl, body);
    HighHalf(r.version, r.bits);
  }

  lemma OptType(data: seq<Byte>, off: nat, n: nat, additional: bool, opt: bool, blocks: bool)
    requires Decoded(data, off) == Some(([], off + 1)) && off + 11 + n <= |data|
    requires U16(data, off + 1) == 41 && U16(data, off + 9) == n
    requires OptionsFrom(data, off + 11, off + 11 + n) == Some(blocks)
    ensures RecordAt(data, off, additional, opt) ==
            if opt || !additional || U16(data, off + 5) != 0 then None else Some(Scan(off + 11 + n, true, blocks))
  {
  }

  lemma HighHalf(version: nat, bits: nat)
    requires bits < 0x1_0000
    ensures (version * 0x1_0000 + bits) / 0x1_0000 == version
  {
  }

  lemma RootDecodes(data: seq<Byte>, off: nat)
    requires off < |data| && data[off] == 0
    ensures Decoded(data, off) == Some(([], off + 1))
  {
    var steps: nat := STEPS;
    assert NameAt(data, off, steps) == Some(Name([], off + 1));
    assert JoinDots([]) == [];
  }

  /** Accepted records: each fits, and only one of the additional ones, if any, is OPT. */
  predicate Accepted(records: seq<Item>, asked: seq<Label>, before: int, opt: bool) {
    forall i :: 0 <= i < |records| ==>
      && Fits(records[i], asked)
      && (records[i].Opt? ==> i >= before && !opt && forall j :: 0 <= j < i ==> !records[j].Opt?)
  }

  predicate AnyFilters(records: seq<Item>) {
    exists i :: 0 <= i < |records| && Filters(records[i])
  }

  lemma AcceptedFirst(records: seq<Item>, asked: seq<Label>, before: int, opt: bool)
    requires records != []
    ensures Accepted(records, asked, before, opt) <==>
            && Fits(records[0], asked) && (records[0].Opt? ==> before <= 0 && !opt)
            && Accepted(records[1..], asked, before - 1, opt || records[0].Opt?)
  {
    var rest := records[1..];
    assert forall i :: 1 <= i < |records| ==> records[i] == rest[i - 1];
    if Accepted(records, asked, before, opt) {
      forall i | 0 <= i < |rest|
        ensures Fits(rest[i], asked)
        ensures rest[i].Opt? ==> i >= before - 1 && !opt && !records[0].Opt? && forall j :: 0 <= j < i ==> !rest[j].Opt?
      {
        assert rest[i] == records[i + 1];
        assert forall j :: 0 <= j < i ==> rest[j] == records[j + 1];
      }
    }
  }

  lemma FiltersFirst(records: seq<Item>)
    requires records != []
    ensures AnyFilters(records) <==> Filters(records[0]) || AnyFilters(records[1..])
  {
    assert forall i :: 1 <= i < |records| ==> records[i] == records[1..][i - 1];
    if AnyFilters(records[1..]) {
      var i :| 0 <= i < |records[1..]| && Filters(records[1..][i]);
      assert Filters(records[i + 1]);
    }
  }

  /** If the bytes lie at an offset, they are read there as the record. */
  ghost predicate ReadAt(p: seq<Byte>, r: Item, asked: seq<Label>, data: seq<Byte>, off: nat, before: int, opt: bool) {
    Asked(data, asked) && off + |p| <= |data| && data[off..off + |p|] == p ==>
      RecordAt(data, off, before <= 0, opt) ==
      if Fits(r, asked) && (r.Opt? ==> before <= 0 && !opt) then Some(Scan(off + |p|, opt || r.Opt?, Filters(r)))
      else None
  }

  ghost predicate Faithful(p: seq<Byte>, r: Item, asked: seq<Label>) {
    forall data: seq<Byte>, off: nat, before: int, opt: bool :: ReadAt(p, r, asked, data, off, before, opt)
  }

  lemma RecordIsRead(r: Record, asked: seq<Label>)
    ensures Faithful(RecordBytes(r), r, asked)
  {
    forall data: seq<Byte>, off: nat, before: int, opt: bool
      ensures ReadAt(RecordBytes(r), r, asked, data, off, before, opt)
    {
      RecordIsAt(data, off, r, asked, before, opt);
    }
  }

  lemma RecordIsAt(data: seq<Byte>, off: nat, r: Record, asked: seq<Label>, before: int, opt: bool)
    ensures ReadAt(RecordBytes(r), r, asked, data, off, before, opt)
  {
    var p := RecordBytes(r);
    if Asked(data, asked) && off + |p| <= |data| && data[off..off + |p|] == p {
      if r.Opt? {
        OptAt(data, off, r, before <= 0, opt);
      } else {
        PlainAt(data, off, r, asked, before <= 0, opt);
      }
    }
  }

  /** What the parser makes of n records from off on. */
  predicate ReadAs(data: seq<Byte>, off: nat, n: nat, before: int, opt: bool, accepted: bool, end: nat, filters: bool) {
    var r := Records(data, off, n, before, opt);
    (r.Some? <==> accepted) && (r.Some? ==> r.value.end == end && r.value.filtered == filters)
  }

  lemma ReadFirst(data: seq<Byte>, off: nat, n: nat, before: int, opt: bool, first: Scan, fits: bool, accepted: bool,
                  end: nat, filters: bool)
    requires n > 0 && RecordAt(data, off, before <= 0, opt) == if fits then Some(first) else None
    requires ReadAs(data, first.end, n - 1, before - 1, first.opt, accepted, end, filters)
    ensures ReadAs(data, off, n, before, opt, fits && accepted, end, first.filtered || filters)
  {
  }

  /** The records are read exactly when they are accepted, wherever they lie. */
  lemma {:induction false} PiecesAreRead(data: seq<Byte>, off: nat, pieces: seq<seq<Byte>>, records: seq<Item>,
                                         asked: seq<Label>, before: int, opt: bool, end: nat)
    requires Asked(data, asked) && |pieces| == |records|
    requires forall i :: 0 <= i < |records| ==> Faithful(pieces[i], records[i], asked)
    requires end == off + |Concat(pieces)| <= |data| && data[off..end] == Concat(pieces)
    ensures ReadAs(data, off, |records|, before, opt, Accepted(records, asked, before, opt), end, AnyFilters(records))
    decreases |pieces|
  {
    if pieces == [] {
      assert records == [];
      NoneAreRead(data, off, before, opt, asked);
    } else {
      var more := opt || records[0].Opt?;
      var next := AfterPiece(data, off, pieces, end);
      PiecesAreRead(data, next, pieces[1..], records[1..], asked, before - 1, more, end);
      ReadMore(data, off, pieces[0], records, asked, before, opt, next, more, end);
    }
  }

  lemma AfterPiece(data: seq<Byte>, off: nat, pieces: seq<seq<Byte>>, end: nat) returns (next: nat)
    requires pieces != [] && end == off + |Concat(pieces)| <= |data| && data[off..end] == Concat(pieces)
    ensures next == off + |pieces[0]| <= |data| && data[off..next] == pieces[0]
    ensures end == next + |Concat(pieces[1..])| && data[next..end] == Concat(pieces[1..])
  {
    next := off + |pieces[0]|;
    TwoParts(data, off, pieces[0], Concat(pieces[1..]));
  }

  lemma ReadMore(data: seq<Byte>, off: nat, p: seq<Byte>, records: seq<Item>, asked: seq<Label>, before: int, opt: bool,
                 next: nat, more: bool, end: nat)
    requires records != [] && Asked(data, asked) && Faithful(p, records[0], asked)
    requires next == off + |p| <= |data| && data[off..next] == p && more == (opt || records[0].Opt?)
    requires ReadAs(data, next, |records[1..]|, before - 1, more, Accepted(records[1..], asked, before - 1, more), end,
                    AnyFilters(records[1..]))
    ensures ReadAs(data, off, |records|, before, opt, Accepted(records, asked, before, opt), end, AnyFilters(records))
  {
    var fits := FirstIsRead(data, off, p, records[0], asked, before, opt);
    ReadOn(data, off, records, asked, before, opt, fits, off + |p|, end);
  }

  lemma FirstIsRead(data: seq<Byte>, off: nat, p: seq<Byte>, r: Item, asked: seq<Label>, before: int, opt: bool)
    returns (fits: bool)
    requires Asked(data, asked) && Faithful(p, r, asked) && off + |p| <= |data| && data[off..off + |p|] == p
    ensures fits <==> Fits(r, asked) && (r.Opt? ==> before <= 0 && !opt)
    ensures RecordAt(data, off, before <= 0, opt) ==
            if fits then Some(Scan(off + |p|, opt || r.Opt?, Filters(r))) else None
  {
    fits := Fits(r, asked) && (r.Opt? ==> before <= 0 && !opt);
    assert ReadAt(p, r, asked, data, off, before, opt);
  }

  lemma NoneAreRead(data: seq<Byte>, off: nat, before: int, opt: bool, asked: seq<Label>)
    ensures ReadAs(data, off, 0, before, opt, Accepted([], asked, before, opt), off, AnyFilters([]))
  {
  }

  lemma ReadOn(data: seq<Byte>, off: nat, records: seq<Item>, asked: seq<Label>, before: int, opt: bool, fits: bool,
               next: nat, end: nat)
    requires records != []
    requires fits <==> Fits(records[0], asked) && (records[0].Opt? ==> before <= 0 && !opt)
    requires RecordAt(data, off, before <= 0, opt) ==
             if fits then Some(Scan(next, opt || records[0].Opt?, Filters(records[0]))) else None
    requires ReadAs(data, next, |records[1..]|, before - 1, opt || records[0].Opt?,
                    Accepted(records[1..], asked, before - 1, opt || records[0].Opt?), end, AnyFilters(records[1..]))
    ensures ReadAs(data, off, |records|, before, opt, Accepted(records, asked, before, opt), end, AnyFilters(records))
  {
    AcceptedFirst(records, asked, before, opt);
    FiltersFirst(records);
    ReadFirst(data, off, |records|, before, opt, Scan(next, opt || records[0].Opt?, Filters(records[0])), fits,
              Accepted(records[1..], asked, before - 1, opt || records[0].Opt?), end, AnyFilters(records[1..]));
  }

  // ----- the header

  /** A response to a standard query, neither truncated nor with the reserved bit set. */
  predicate Welcome(flags: nat) {
    flags >= 0x8000 && flags / 2048 % 16 == 0 && flags / 512 % 2 == 0 && flags / 64 % 2 == 0
  }

  lemma RefusedBits(f: nat)
    ensures BitAnd(f, 0x7a40) == 0 <==> f / 2048 % 16 == 0 && f / 512 % 2 == 0 && f / 64 % 2 == 0
  {
    AndNibble(f, 0x7a4);
    AndPair(f / 16, 0x1e9);
    HighBits(f / 64);
    Quotients(f);
  }

  lemma HighBits(h: nat)
    ensures BitAnd(h, 0x1e9) == 0 <==> h / 32 % 16 == 0 && h / 8 % 2 == 0 && h % 2 == 0
  {
    AndBit(h, 0xf4);
    AndPair(h / 2, 0x3d);
    AndBit(h / 8, 0x1e);
    AndBit(h / 16, 15);
    And0F(h / 32);
    assert h / 2 / 4 == h / 8 && h / 8 / 2 == h / 16 && h / 16 / 2 == h / 32;
  }

  lemma Quotients(f: nat)
    ensures f / 16 / 4 == f / 64 && f / 64 / 8 == f / 512 && f / 64 / 32 == f / 2048
  {
  }

  lemma WelcomeBits(flags: nat)
    requires flags < 0x1_0000
    ensures BitAnd(flags, 0x8000) != 0 && BitAnd(flags, 0x7a40) == 0 <==> Welcome(flags)
    ensures BitAnd(flags, 15) == flags % 16
  {
    TopBit(flags);
    RefusedBits(flags);
    And0F(flags);
  }

  /**
   Whatever the message holds: it is accepted only with the query's identifier, as a response to a standard query that
   is neither truncated nor has the reserved bit set, with one question and at most 128 records; its code is that of
   the flags.
   */
  lemma AcceptedHeader(data: seq<Byte>, id: nat, domain: seq<Byte>)
    requires Parsed(data, id, domain).Some?
    ensures |data| >= 12 && U16(data, 0) == id && Welcome(U16(data, 2)) && U16(data, 4) == 1
    ensures U16(data, 6) + U16(data, 8) + U16(data, 10) <= 128
    ensures Parsed(data, id, domain).value.rcode == U16(data, 2) % 16
    ensures exists off: nat :: Asks(data, ToLower(domain), off)
  {
    WelcomeBits(U16(data, 2));
    assert Asks(data, ToLower(domain), Decoded(data, 12).value.1);
  }

  // ----- whole messages

  datatype Counts = Counts(answers: nat, authorities: nat, additional: nat)

  predicate Countable(c: Counts) {
    c.answers < 0x1_0000 && c.authorities < 0x1_0000 && c.additional < 0x1_0000
  }

  function Total(c: Counts): nat {
    c.answers + c.authorities + c.additional
  }

  function ReplyHead(id: nat, flags: nat, c: Counts): (h: seq<Byte>)
    requires id < 0x1_0000 && flags < 0x1_0000 && Countable(c)
    ensures |h| == 12
  {
    Put16(id) + Put16(flags) + [0, 1] + Put16(c.answers) + Put16(c.authorities) + Put16(c.additional)
  }

  function Reply(domain: seq<Byte>, id: nat, flags: nat, c: Counts, records: seq<Record>): seq<Byte>
    requires QueryDomain(domain) && id < 0x1_0000 && flags < 0x1_0000 && Countable(c)
  {
    ReplyHead(id, flags, c) + QuestionOf(domain) + Concat(Encoded(records))
  }

  lemma HeadFields(data: seq<Byte>, id: nat, flags: nat, c: Counts)
    requires id < 0x1_0000 && flags < 0x1_0000 && Countable(c) && |data| >= 12 && data[..12] == ReplyHead(id, flags, c)
    ensures U16(data, 0) == id && U16(data, 2) == flags && U16(data, 4) == 1 && U16(data, 6) == c.answers
    ensures U16(data, 8) == c.authorities && U16(data, 10) == c.additional
  {
    var h := data[0..12];
    HeadParts(id, flags, c);
    assert h == ReplyHead(id, flags, c);
    Slices(data, 0, 12, 0, 2);
    Slices(data, 0, 12, 2, 4);
    Slices(data, 0, 12, 4, 6);
    Slices(data, 0, 12, 6, 8);
    Slices(data, 0, 12, 8, 10);
    Slices(data, 0, 12, 10, 12);
    Read16(data, 0, id);
    Read16(data, 2, flags);
    Read16(data, 4, 1);
    Read16(data, 6, c.answers);
    Read16(data, 8, c.authorities);
    Read16(data, 10, c.additional);
  }

  lemma HeadParts(id: nat, flags: nat, c: Counts)
    requires id < 0x1_0000 && flags < 0x1_0000 && Countable(c)
    ensures var h := ReplyHead(id, flags, c);
            && h[0..2] == Put16(id) && h[2..4] == Put16(flags) && h[4..6] == Put16(1) && h[6..8] == Put16(c.answers)
            && h[8..10] == Put16(c.authorities) && h[10..12] == Put16(c.additional)
  {
    assert Put16(1) == [0, 1];
  }

  /** The name in the question is what a pointer to it stands for. */
  lemma QuestionIsAsked(data: seq<Byte>, domain: seq<Byte>)
    requires QueryDomain(domain)
    requires 12 + |QuestionOf(domain)| <= |data| && data[12..12 + |QuestionOf(domain)|] == QuestionOf(domain)
    ensures Asked(data, Labels(domain))
  {
    LabelsAreWire(domain);
    Parts(data, 12, Wire(Labels(domain)), INTERNET);
    forall steps: nat
      ensures NameAt(data, 12, steps) ==
              if steps > |Labels(domain)| then Some(Name(Labels(domain), 13 + |Wire(Labels(domain))|)) else None
    {
      WireDecodes(data, 12, Labels(domain), steps);
    }
  }

  lemma ReplyLayout(data: seq<Byte>, h: seq<Byte>, q: seq<Byte>, r: seq<Byte>)
    requires |h| == 12 && data == h + q + r
    ensures data[..12] == h && data[12..12 + |q|] == q && data[12 + |q|..12 + |q| + |r|] == r
    ensures |data| == 12 + |q| + |r|
  {
  }

  lemma EncodedFaithful(records: seq<Record>, asked: seq<Label>)
    ensures forall i :: 0 <= i < |records| ==> Faithful(Encoded(records)[i], records[i], asked)
  {
    forall i | 0 <= i < |records|
      ensures Faithful(Encoded(records)[i], records[i], asked)
    {
      RecordIsRead(records[i], asked);
    }
  }

  lemma RecordsToEnd(data: seq<Byte>, off: nat, records: seq<Record>, asked: seq<Label>, before: nat)
    returns (accepted: bool, filters: bool)
    requires Asked(data, asked) && off + |Concat(Encoded(records))| == |data|
    requires data[off..|data|] == Concat(Encoded(records))
    ensures accepted == Accepted(records, asked, before, false) && filters == AnyFilters(records)
    ensures ReadAs(data, off, |records|, before, false, accepted, |data|, filters)
  {
    accepted, filters := Accepted(records, asked, before, false), AnyFilters(records);
    EncodedFaithful(records, asked);
    PiecesAreRead(data, off, Encoded(records), records, asked, before, false, |data|);
  }

  predicate CountsAre(data: seq<Byte>, c: Counts) {
    && |data| >= 12 && U16(data, 4) == 1 && U16(data, 6) == c.answers && U16(data, 8) == c.authorities
    && U16(data, 10) == c.additional
  }

  lemma HeadKnown(data: seq<Byte>, id: nat, c: Counts)
    requires CountsAre(data, c) && U16(data, 0) == id
    ensures HeadOf(data, id) ==
            if Welcome(U16(data, 2)) && Total(c) <= 128
            then Some(DnsResponse.Head(Total(c), c.answers + c.authorities, U16(data, 2) % 16))
            else None
  {
    WelcomeBits(U16(data, 2));
  }

  /** The question is an Internet address question under a name that ends at an offset. */
  predicate Asks(data: seq<Byte>, name: seq<Byte>, off: nat) {
    && Decoded(data, 12) == Some((name, off)) && off + 4 <= |data| && U16(data, off) == 1 && U16(data, off + 2) == 1
  }

  lemma BodyKnown(data: seq<Byte>, h: DnsResponse.Head, domain: seq<Byte>, name: seq<Byte>, off: nat, accepted: bool,
                  filters: bool)
    requires |data| >= 12 && Asks(data, name, off)
    requires ReadAs(data, off + 4, h.records, h.before, false, accepted, |data|, filters)
    ensures BodyParsed(data, h, domain) ==
            if name == ToLower(domain) && accepted then Some(Result(filters, h.rcode)) else None
  {
  }

  /** Once question and records are known, so is the answer. */
  lemma BodyIs(data: seq<Byte>, h: DnsResponse.Head, domain: seq<Byte>, name: seq<Byte>, off: nat,
               records: seq<Record>, asked: seq<Label>)
    requires |data| >= 12 && Asks(data, name, off) && Asked(data, asked) && |records| == h.records
    requires off + 4 + |Concat(Encoded(records))| == |data| && data[off + 4..|data|] == Concat(Encoded(records))
    ensures BodyParsed(data, h, domain) ==
            if name == ToLower(domain) && Accepted(records, asked, h.before, false)
            then Some(Result(AnyFilters(records), h.rcode))
            else None
  {
    var accepted, filters := RecordsToEnd(data, off + 4, records, asked, h.before);
    BodyKnown(data, h, domain, name, off, accepted, filters);
  }

  lemma ParsedFrom(data: seq<Byte>, id: nat, domain: seq<Byte>, c: Counts, body: Option<Result>)
    requires CountsAre(data, c) && U16(data, 0) == id
    requires BodyParsed(data, DnsResponse.Head(Total(c), c.answers + c.authorities, U16(data, 2) % 16), domain) == body
    ensures Parsed(data, id, domain) == if Welcome(U16(data, 2)) && Total(c) <= 128 then body else None
  {
    HeadKnown(data, id, c);
  }

  lemma QuestionKnown(data: seq<Byte>, domain: seq<Byte>, off: nat)
    requires QueryDomain(domain) && off + 4 == 12 + |QuestionOf(domain)| <= |data|
    requires data[12..off + 4] == QuestionOf(domain)
    ensures Asks(data, Canonical(domain), off)
  {
    QuestionDecodes(data, 12, domain);
    TypeAndClass(data, off);
  }

  /** Header, question and records of a reply, where they lie. */
  lemma ReplyKnown(data: seq<Byte>, domain: seq<Byte>, id: nat, flags: nat, c: Counts, records: seq<Record>)
    returns (end: nat)
    requires QueryDomain(domain) && id < 0x1_0000 && flags < 0x1_0000 && Countable(c)
    requires data == Reply(domain, id, flags, c, records)
    ensures CountsAre(data, c) && U16(data, 0) == id && U16(data, 2) == flags
    ensures end == 12 + |QuestionOf(domain)| <= |data| && data[12..end] == QuestionOf(domain)
    ensures end + |Concat(Encoded(records))| == |data| && data[end..|data|] == Concat(Encoded(records))
  {
    var h, q, r := ReplyHead(id, flags, c), QuestionOf(domain), Concat(Encoded(records));
    end := 12 + |q|;
    ReplyLayout(data, h, q, r);
    HeadFields(data, id, flags, c);
  }

  /**
   A response to the query with any records in its three sections is accepted exactly when its flags are welcome, there
   are at most 128 records, the caller's domain has no trailing dot, every owner is short enough, and at most one record
   is OPT, which stands among the additional ones in version 0. It is then reported as filtered exactly when an option
   of that record blocks, with the code of the flags.
   */
  lemma ResponseAccepted(domain: seq<Byte>, id: nat, flags: nat, c: Counts, records: seq<Record>)
    requires QueryDomain(domain) && id < 0x1_0000 && flags < 0x1_0000 && Countable(c) && |records| == Total(c)
    ensures Parsed(Reply(domain, id, flags, c, records), id, domain) ==
            if Welcome(flags) && Total(c) <= 128 && domain[|domain| - 1] != DOT
              && Accepted(records, Labels(domain), c.answers + c.authorities, false)
            then Some(Result(AnyFilters(records), flags % 16))
            else None
  {
    var data := Reply(domain, id, flags, c, records);
    var end := ReplyKnown(data, domain, id, flags, c, records);
    assert domain != [];
    DotStays(domain);
    ReplyParsed(data, domain, id, c, records, end - 4);
  }

  lemma ReplyParsed(data: seq<Byte>, domain: seq<Byte>, id: nat, c: Counts, records: seq<Record>, off: nat)
    requires QueryDomain(domain) && CountsAre(data, c) && U16(data, 0) == id && |records| == Total(c)
    requires off + 4 == 12 + |QuestionOf(domain)| <= |data| && data[12..off + 4] == QuestionOf(domain)
    requires off + 4 + |Concat(Encoded(records))| == |data| && data[off + 4..|data|] == Concat(Encoded(records))
    ensures Parsed(data, id, domain) ==
            if Welcome(U16(data, 2)) && Total(c) <= 128 && Canonical(domain) == ToLower(domain)
              && Accepted(records, Labels(domain), c.answers + c.authorities, false)
            then Some(Result(AnyFilters(records), U16(data, 2) % 16))
            else None
  {
    var h := DnsResponse.Head(Total(c), c.answers + c.authorities, U16(data, 2) % 16);
    QuestionKnown(data, domain, off);
    QuestionIsAsked(data, domain);
    BodyIs(data, h, domain, Canonical(domain), off, records, Labels(domain));
    ParsedFrom(data, id, domain, c, BodyParsed(data, h, domain));
  }
}
