/** Policy routing: whether the rules that were read explain the route the kernel reported. */
module RoutePolicy {
  import opened Bytes
  import opened Nftables
  import Sorting

  /** Fields as they are found in a listing: absent, unreadable, or with a value. */
  datatype Field<+T> = Absent | Garbled | Value(v: T)
  datatype TableField = NoTable | TableNumber(n: nat) | TableText(name: string)

  /** One rule of the listing; plain means that it carries nothing but a lookup. */
  datatype Row = Row(src: Field<string>, dst: Field<string>, iif: Field<string>, priority: Field<nat>, mark: Field<nat>,
                     mask: Field<nat>, table: TableField, plain: bool)
  datatype Route = Route(dev: string, kind: string, table: TableField)

  const MAX_ROWS: nat := 64
  const ALL_BITS: nat := 0xFFFF_FFFF

  function TableId(t: TableField): Option<nat> {
    match t
    case NoTable => None
    case TableNumber(n) => Some(n)
    case TableText(name) =>
      if name == "local" then Some(255) else if name == "main" then Some(254) else if name == "default" then Some(253)
      else None
  }

  /** Whether a selector holds for an address, and whether that is known. */
  function Prefix(lib: Library, text: string, address: string): (bool, bool) {
    if text == "" || text == "all" then (true, true)
    else
      var want := lib.address(address);
      match lib.prefix(text)
      case Some((base, bits)) => (want.Some? && bits <= 32 && InPrefix(base, bits, want.value), want.Some?)
      case None =>
        var a := lib.address(text);
        if lib.foreign(text) then (false, want.Some?)
        else (a.Some? && want.Some? && a.value == want.value, a.Some? && want.Some?)
  }

  function TextOf(f: Field<string>): string {
    if f.Value? then f.v else ""
  }

  function MaskOf(r: Row): nat {
    if r.mask.Value? then r.mask.v else ALL_BITS
  }

  /** The traffic that was asked about, as texts. */
  datatype Asked = Asked(source: string, target: string, ingress: string, mark: nat)

  /** What a row says about the traffic: it is about other traffic, unreadable, for another mark, or a lookup. */
  datatype Reading = Elsewhere | Unreadable | OtherMark(priority: nat) | Lookup(priority: nat, table: nat)

  function Read(lib: Library, r: Row, q: Asked): Reading {
    if r.src.Garbled? || r.dst.Garbled? || r.iif.Garbled? then Unreadable
    else
      var (sm, sk) := Prefix(lib, TextOf(r.src), q.source);
      var (dm, dk) := Prefix(lib, TextOf(r.dst), q.target);
      if sk && dk && (!sm || !dm || (TextOf(r.iif) != "" && TextOf(r.iif) != q.ingress)) then Elsewhere
      else if !sk || !dk || !r.priority.Value? || !r.plain || r.mark.Garbled? then Unreadable
      else if r.mark.Value? && r.mask.Garbled? then Unreadable
      else if r.mark.Value? && BitAnd(q.mark, MaskOf(r)) != BitAnd(r.mark.v, MaskOf(r)) then OtherMark(r.priority.v)
      else if TableId(r.table).None? then Unreadable
      else Lookup(r.priority.v, TableId(r.table).value)
  }

  /** Every row that may be about the traffic is readable, and their priorities differ. */
  predicate AllRead(lib: Library, rows: seq<Row>, q: Asked) {
    && (forall i :: 0 <= i < |rows| ==> !Read(lib, rows[i], q).Unreadable?)
    && forall i, j :: 0 <= i < j < |rows| && !Read(lib, rows[i], q).Elsewhere? && !Read(lib, rows[j], q).Elsewhere? ==>
         rows[i].priority != rows[j].priority
  }

  predicate LooksUp(lib: Library, rows: seq<Row>, q: Asked, table: nat) {
    exists i :: 0 <= i < |rows| && Read(lib, rows[i], q).Lookup? && Read(lib, rows[i], q).table == table
  }

  function Selected(route: seq<Route>): Option<nat> {
    if |route| != 1 || route[0].dev == "" || (route[0].kind != "" && route[0].kind != "unicast") then None
    else if route[0].table.NoTable? then Some(254) else TableId(route[0].table)
  }

  /** The device of the reported route, when the rules explain its table. */
  function Device(lib: Library, route: seq<Route>, rows: seq<Row>, q: Asked): Option<string> {
    if Selected(route).Some? && |rows| <= MAX_ROWS && AllRead(lib, rows, q)
       && LooksUp(lib, rows, q, Selected(route).value) then Some(route[0].dev) else None
  }

  method Explain(lib: Library, route: seq<Route>, rows: seq<Row>, q: Asked) returns (dev: Option<string>)
    ensures dev == Device(lib, route, rows, q)
  {
    var selected := Selected(route);
    if selected.None? || |rows| > 64 {
      return None;
    }
    var ok, applicable := ReadRows(lib, rows, q);
    if !ok {
      return None;
    }
    var ordered := Sorting.Sort(applicable, (r: (nat, nat)) => r.0);
    SameTables(applicable, selected.value);
    var k := 0;
    while k < |ordered|
      invariant 0 <= k <= |ordered| && forall j :: 0 <= j < k ==> ordered[j].1 != selected.value
    {
      if ordered[k].1 == selected.value {
        return Some(route[0].dev);
      }
      k := k + 1;
    }
    return None;
  }

  predicate HasTable(s: seq<(nat, nat)>, t: nat) {
    exists k :: 0 <= k < |s| && s[k].1 == t
  }

  function PriorityOf(r: Row): nat {
    if r.priority.Value? then r.priority.v else 0
  }

  /** The lookups that apply, with their priorities; false when some row is unreadable or a priority occurs twice. */
  method ReadRows(lib: Library, rows: seq<Row>, q: Asked) returns (ok: bool, applicable: seq<(nat, nat)>)
    ensures ok <==> AllRead(lib, rows, q)
    ensures ok ==> forall t: nat :: HasTable(applicable, t) <==> LooksUp(lib, rows, q, t)
  {
    applicable := [];
    var seen: set<nat> := {};
    var i := 0;
    while i < |rows|
      invariant 0 <= i <= |rows| && Taken(lib, rows, i, q, seen, applicable)
    {
      var reading := Read(lib, rows[i], q);
      TakeRow(lib, rows, i, q, seen, applicable);
      match reading {
        case Elsewhere =>
        case Unreadable => return false, [];
        case OtherMark(priority) =>
          if priority in seen {
            return false, [];
          }
          seen := seen + {priority};
        case Lookup(priority, table) =>
          if priority in seen {
            return false, [];
          }
          seen := seen + {priority};
          applicable := applicable + [(priority, table)];
      }
      i := i + 1;
    }
    assert rows[..i] == rows;
    ok := true;
  }

  /** The first i rows are read; seen has their priorities, applicable their tables. */
  ghost predicate Taken(lib: Library, rows: seq<Row>, i: nat, q: Asked, seen: set<nat>, applicable: seq<(nat, nat)>)
    requires i <= |rows|
  {
    && AllRead(lib, rows[..i], q)
    && seen == (set k | 0 <= k < i && !Read(lib, rows[k], q).Elsewhere? :: PriorityOf(rows[k]))
    && forall t: nat :: HasTable(applicable, t) <==> LooksUp(lib, rows[..i], q, t)
  }

  lemma TakeRow(lib: Library, rows: seq<Row>, i: nat, q: Asked, seen: set<nat>, applicable: seq<(nat, nat)>)
    requires i < |rows| && Taken(lib, rows, i, q, seen, applicable)
    ensures var reading := Read(lib, rows[i], q);
            match reading
            case Unreadable => !AllRead(lib, rows, q)
            case Elsewhere => Taken(lib, rows, i + 1, q, seen, applicable)
            case OtherMark(p) => if p in seen then !AllRead(lib, rows, q)
              else Taken(lib, rows, i + 1, q, seen + {p}, applicable)
            case Lookup(p, table) =>
              if p in seen then !AllRead(lib, rows, q)
              else Taken(lib, rows, i + 1, q, seen + {p}, applicable + [(p, table)])
  {
    var reading := Read(lib, rows[i], q);
    FrontReads(lib, rows, i, q);
    if reading.Lookup? {
      TablesGrow(lib, rows, i, q, applicable, (reading.priority, reading.table));
    } else if !reading.Unreadable? {
      TablesStay(lib, rows, i, q);
    }
    if (reading.Lookup? || reading.OtherMark?) && reading.priority in seen {
      var k :| 0 <= k < i && !Read(lib, rows[k], q).Elsewhere? && PriorityOf(rows[k]) == reading.priority;
      SamePriority(lib, rows, k, i, q);
    }
  }

  lemma SamePriority(lib: Library, rows: seq<Row>, k: nat, i: nat, q: Asked)
    requires k < i < |rows| && !Read(lib, rows[k], q).Elsewhere? && !Read(lib, rows[i], q).Elsewhere?
    requires rows[k].priority == rows[i].priority
    ensures !AllRead(lib, rows, q)
  {
  }

  lemma FrontReads(lib: Library, rows: seq<Row>, i: nat, q: Asked)
    requires i < |rows| && AllRead(lib, rows[..i], q)
    ensures var a := Read(lib, rows[i], q);
            (!a.Unreadable? && (a.Elsewhere? || forall k :: 0 <= k < i && !Read(lib, rows[k], q).Elsewhere? ==>
                                PriorityOf(rows[k]) != PriorityOf(rows[i])))
            ==> AllRead(lib, rows[..i + 1], q)
    ensures forall k :: 0 <= k < i && !Read(lib, rows[k], q).Elsewhere? ==> rows[k].priority.Value?
  {
    assert forall k :: 0 <= k < i ==> rows[..i][k] == rows[k] == rows[..i + 1][k];
  }

  lemma TablesStay(lib: Library, rows: seq<Row>, i: nat, q: Asked)
    requires i < |rows| && !Read(lib, rows[i], q).Lookup?
    ensures forall t: nat :: LooksUp(lib, rows[..i + 1], q, t) <==> LooksUp(lib, rows[..i], q, t)
  {
    var a, b := rows[..i], rows[..i + 1];
    assert forall k :: 0 <= k < i ==> a[k] == rows[k] == b[k];
  }

  lemma TablesGrow(lib: Library, rows: seq<Row>, i: nat, q: Asked, s: seq<(nat, nat)>, x: (nat, nat))
    requires i < |rows| && Read(lib, rows[i], q) == Lookup(x.0, x.1)
    requires forall t: nat :: HasTable(s, t) <==> LooksUp(lib, rows[..i], q, t)
    ensures forall t: nat :: HasTable(s + [x], t) <==> LooksUp(lib, rows[..i + 1], q, t)
  {
    var a, b, u := rows[..i], rows[..i + 1], s + [x];
    assert forall k :: 0 <= k < i ==> a[k] == rows[k] == b[k];
    assert b[i] == rows[i] && u[|s|] == x;
    forall t: nat
      ensures HasTable(u, t) <==> LooksUp(lib, b, q, t)
    {
      if HasTable(s, t) {
        var k :| 0 <= k < |s| && s[k].1 == t;
        assert u[k].1 == t;
        var j :| 0 <= j < |a| && Read(lib, a[j], q).Lookup? && Read(lib, a[j], q).table == t;
        assert b[j] == a[j];
      }
    }
  }

  lemma SameTables(s: seq<(nat, nat)>, t: nat)
    ensures HasTable(Sorting.Sort(s, (r: (nat, nat)) => r.0), t) <==> HasTable(s, t)
  {
    var rank := (r: (nat, nat)) => r.0;
    var o := Sorting.Sort(s, rank);
    Sorting.SortSorts(s, rank);
    if k :| 0 <= k < |s| && s[k].1 == t {
      assert s[k] in multiset(o);
    }
    if k :| 0 <= k < |o| && o[k].1 == t {
      assert o[k] in multiset(s);
    }
  }

  // ----- what the kernel does with the rules

  /** A packet as policy routing sees it. */
  datatype Flow = Flow(src: Ip, dst: Ip, iif: string, mark: nat)

  function SelectorHolds(lib: Library, f: Field<string>, a: Ip): bool {
    var text := TextOf(f);
    if text == "" || text == "all" then true
    else
      match lib.prefix(text)
      case Some((base, bits)) => bits <= 32 && InPrefix(base, bits, a)
      case None => !lib.foreign(text) && lib.address(text) == Some(a)
  }

  /** The rule applies to the packet. */
  predicate Applies(lib: Library, r: Row, p: Flow) {
    && SelectorHolds(lib, r.src, p.src) && SelectorHolds(lib, r.dst, p.dst)
    && (TextOf(r.iif) == "" || TextOf(r.iif) == p.iif)
    && (r.mark.Value? ==> BitAnd(p.mark, MaskOf(r)) == BitAnd(r.mark.v, MaskOf(r)))
  }

  /** The kernel answers from a table: the applying rule of lowest priority whose table has a route. */
  ghost predicate Answers(lib: Library, rows: seq<Row>, p: Flow, routes: nat -> bool, table: nat) {
    exists i :: 0 <= i < |rows| && Applies(lib, rows[i], p) && TableId(rows[i].table) == Some(table) && routes(table)
                && forall j ::
                     0 <= j < |rows| && Applies(lib, rows[j], p) && PriorityOf(rows[j]) < PriorityOf(rows[i]) ==>
                       TableId(rows[j].table).Some? && !routes(TableId(rows[j].table).value)
  }

  predicate Asks(lib: Library, q: Asked, p: Flow) {
    lib.address(q.source) == Some(p.src) && lib.address(q.target) == Some(p.dst) && q.ingress == p.iif
      && q.mark == p.mark
  }

  /** A row that is set aside does not apply, and a lookup does. */
  lemma ReadingIsTrue(lib: Library, r: Row, q: Asked, p: Flow)
    requires Asks(lib, q, p)
    ensures Read(lib, r, q).Elsewhere? || Read(lib, r, q).OtherMark? ==> !Applies(lib, r, p)
    ensures Read(lib, r, q).Lookup? ==> Applies(lib, r, p) && TableId(r.table) == Some(Read(lib, r, q).table) && r.plain
  {
    PrefixIsTrue(lib, r.src, q.source, p.src);
    PrefixIsTrue(lib, r.dst, q.target, p.dst);
  }

  lemma PrefixIsTrue(lib: Library, f: Field<string>, text: string, a: Ip)
    requires lib.address(text) == Some(a)
    ensures var (holds, known) := Prefix(lib, TextOf(f), text); known ==> (holds <==> SelectorHolds(lib, f, a))
  {
  }

  /**
   When every row is read, the reported table is explained exactly when some rule that applies to the packet looks it
   up; in particular whenever the kernel answers from it. The order of the rows does not matter.
   */
  lemma ExplainedMeans(lib: Library, rows: seq<Row>, q: Asked, p: Flow, routes: nat -> bool, table: nat)
    requires Asks(lib, q, p) && AllRead(lib, rows, q)
    ensures LooksUp(lib, rows, q, table) <==>
            exists i :: 0 <= i < |rows| && Applies(lib, rows[i], p) && TableId(rows[i].table) == Some(table)
    ensures Answers(lib, rows, p, routes, table) ==> LooksUp(lib, rows, q, table)
  {
    forall i | 0 <= i < |rows|
      ensures Applies(lib, rows[i], p) <==> Read(lib, rows[i], q).Lookup?
      ensures Read(lib, rows[i], q).Lookup? ==> TableId(rows[i].table) == Some(Read(lib, rows[i], q).table)
    {
      ReadingIsTrue(lib, rows[i], q, p);
      assert !Read(lib, rows[i], q).Unreadable?;
    }
  }

  /** Rows in any order explain the same tables. */
  lemma TablesForgetOrder(lib: Library, a: seq<Row>, b: seq<Row>, q: Asked, table: nat)
    requires multiset(a) == multiset(b)
    ensures LooksUp(lib, a, q, table) ==> LooksUp(lib, b, q, table)
  {
    if LooksUp(lib, a, q, table) {
      var i :| 0 <= i < |a| && Read(lib, a[i], q).Lookup? && Read(lib, a[i], q).table == table;
      assert a[i] in multiset(b);
      var j :| 0 <= j < |b| && b[j] == a[i];
    }
  }

  /** Two places of one row are two occurrences of it. */
  lemma TwoPlaces(s: seq<Row>, i: nat, j: nat)
    requires i < j < |s| && s[i] == s[j]
    ensures multiset(s)[s[i]] >= 2
  {
    var front, back := s[..j], s[j..];
    assert s == front + back && front[i] == s[i] && back[0] == s[j];
    assert s[i] in multiset(front) && s[i] in multiset(back);
  }

  lemma TwoOccurrences(s: seq<Row>, x: Row) returns (i: nat, j: nat)
    requires multiset(s)[x] >= 2
    ensures i < j < |s| && s[i] == s[j] == x
  {
    assert x in multiset(s);
    i :| 0 <= i < |s| && s[i] == x;
    var front, back := s[..i], s[i + 1..];
    assert s == front + [x] + back;
    if x in multiset(back) {
      var k :| 0 <= k < |back| && back[k] == x;
      j := i + 1 + k;
    } else {
      assert x in multiset(front);
      var k :| 0 <= k < |front| && front[k] == x;
      i, j := k, i;
    }
  }

  lemma ReadingForgetsOrder(lib: Library, a: seq<Row>, b: seq<Row>, q: Asked)
    requires multiset(a) == multiset(b) && AllRead(lib, a, q)
    ensures AllRead(lib, b, q)
  {
    forall i | 0 <= i < |b|
      ensures !Read(lib, b[i], q).Unreadable?
    {
      assert b[i] in multiset(a);
    }
    forall i, j | 0 <= i < j < |b| && !Read(lib, b[i], q).Elsewhere? && !Read(lib, b[j], q).Elsewhere?
      ensures b[i].priority != b[j].priority
    {
      if b[i] == b[j] {
        TwoPlaces(b, i, j);
        var _, _ := TwoOccurrences(a, b[i]);
      } else {
        assert b[i] in multiset(a) && b[j] in multiset(a);
        var k :| 0 <= k < |a| && a[k] == b[i];
        var l :| 0 <= l < |a| && a[l] == b[j];
        assert k < l || l < k;
      }
    }
  }

  /** The answer does not depend on the order of the rows. */
  lemma OrderDoesNotMatter(lib: Library, route: seq<Route>, a: seq<Row>, b: seq<Row>, q: Asked)
    requires multiset(a) == multiset(b)
    ensures Device(lib, route, a, q) == Device(lib, route, b, q)
  {
    assert |multiset(a)| == |a| && |multiset(b)| == |b|;
    if AllRead(lib, a, q) {
      ReadingForgetsOrder(lib, a, b, q);
    }
    if AllRead(lib, b, q) {
      ReadingForgetsOrder(lib, b, a, q);
    }
    if Selected(route).Some? {
      TablesForgetOrder(lib, a, b, q, Selected(route).value);
      TablesForgetOrder(lib, b, a, q, Selected(route).value);
    }
  }

  // ----- rows that can be read

  /** The numbers of the tables that have names. */
  const TABLES: map<string, nat> := map["local" := 255, "main" := 254, "default" := 253]

  predicate Legible(lib: Library, f: Field<string>) {
    f.Absent? || (f.Value? && (f.v == "" || f.v == "all" || lib.prefix(f.v).Some? || lib.address(f.v).Some?
                               || lib.foreign(f.v)))
  }

  predicate NamesTable(t: TableField, n: nat) {
    t == TableNumber(n) || (t.TableText? && t.name in TABLES && TABLES[t.name] == n)
  }

  /** A plain lookup with all its fields in order is read, as a lookup of the table it names unless the mark differs. */
  lemma LegibleIsRead(lib: Library, r: Row, q: Asked, n: nat)
    requires lib.address(q.source).Some? && lib.address(q.target).Some?
    requires Legible(lib, r.src) && Legible(lib, r.dst) && !r.iif.Garbled? && r.priority.Value? && r.plain
    requires !r.mark.Garbled? && !r.mask.Garbled? && NamesTable(r.table, n)
    ensures Read(lib, r, q).Elsewhere? || Read(lib, r, q) == Lookup(r.priority.v, n)
            || (r.mark.Value? && Read(lib, r, q) == OtherMark(r.priority.v))
    ensures r.src == r.dst == Absent && r.iif == Absent && r.mark.Absent? ==> Read(lib, r, q) == Lookup(r.priority.v, n)
  {
  }

  /**
   The table of a reported route: there is exactly one route, through a device and unicast, and it is of the table it
   names, or of the main table, number 254, when it names none.
   */
  lemma SelectedMeans(route: seq<Route>, n: nat)
    ensures Selected(route) == Some(n) <==>
            && |route| == 1 && route[0].dev != "" && (route[0].kind == "" || route[0].kind == "unicast")
            && (NamesTable(route[0].table, n) || (route[0].table.NoTable? && n == TABLES["main"]))
  {
  }
}
