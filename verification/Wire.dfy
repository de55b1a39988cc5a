/** SSH wire fields: section 5 of RFC 4251. A message is a fixed list of strings and numbers. */
module Wire {
  import opened Bytes

  const LIMIT := 0x1_0000_0000

  /** Byte strings short enough for a 32-bit length. */
  type Short = s: seq<Byte> | |s| < LIMIT witness []

  datatype Kind = Text | Wide | Narrow

  datatype Field = String(text: Short) | Number(value: nat)

  predicate Fits(k: Kind, f: Field) {
    match k
    case Text => f.String?
    case Wide => f.Number? && f.value < 0x1_0000_0000_0000_0000
    case Narrow => f.Number? && f.value < LIMIT
  }

  function Str(v: Short): (s: seq<Byte>)
    ensures |s| == 4 + |v|
  {
    Put32(|v|) + v
  }

  function EncodeField(k: Kind, f: Field): seq<Byte>
    requires Fits(k, f)
  {
    match k
    case Text => Str(f.text)
    case Wide => Put64(f.value)
    case Narrow => Put32(f.value)
  }

  predicate Conforms(layout: seq<Kind>, fields: seq<Field>) {
    |layout| == |fields| && forall i :: 0 <= i < |layout| ==> Fits(layout[i], fields[i])
  }

  function Encode(layout: seq<Kind>, fields: seq<Field>): seq<Byte>
    requires Conforms(layout, fields)
  {
    if layout == [] then [] else EncodeField(layout[0], fields[0]) + Encode(layout[1..], fields[1..])
  }

  /** The next string and what follows it. */
  function TakeStr(s: seq<Byte>): Option<(Short, seq<Byte>)> {
    if |s| < 4 || U32(s, 0) > |s| - 4 then None else Some((s[4..4 + U32(s, 0)], s[4 + U32(s, 0)..]))
  }

  function Take(k: Kind, s: seq<Byte>): Option<(Field, seq<Byte>)> {
    match k
    case Text =>
      (match TakeStr(s)
       case None => None
       case Some((v, rest)) => Some((String(v), rest)))
    case Wide => if |s| < 8 then None else Some((Number(U64(s, 0)), s[8..]))
    case Narrow => if |s| < 4 then None else Some((Number(U32(s, 0)), s[4..]))
  }

  /** Reading is the inverse of writing, in both directions. */
  lemma TakeStrInverse(s: seq<Byte>, v: Short, rest: seq<Byte>)
    ensures TakeStr(s) == Some((v, rest)) <==> s == Str(v) + rest
  {
    if s == Str(v) + rest {
      assert s[0..4] == Put32(|v|);
      Read32(s, 0, |v|);
      assert s[4..4 + |v|] == v && s[4 + |v|..] == rest;
    }
    if TakeStr(s) == Some((v, rest)) {
      var n := U32(s, 0);
      assert Put32(n)[0..4] == Put32(n);
      SameU32(s, 0, Put32(n), 0);
      assert s == s[0..4] + s[4..4 + n] + s[4 + n..];
    }
  }

  lemma TakeInverse(k: Kind, s: seq<Byte>, f: Field, rest: seq<Byte>)
    ensures Take(k, s) == Some((f, rest)) <==> Fits(k, f) && s == EncodeField(k, f) + rest
  {
    match k
    case Text =>
      if f.String? {
        TakeStrInverse(s, f.text, rest);
      }
    case Wide =>
      if |s| >= 8 && f.Number? && f.value < 0x1_0000_0000_0000_0000 {
        WideInverse(s, f.value, rest);
      }
    case Narrow =>
      if |s| >= 4 && f.Number? && f.value < LIMIT {
        NarrowInverse(s, f.value, rest);
      }
  }

  lemma WideInverse(s: seq<Byte>, n: nat, rest: seq<Byte>)
    requires n < 0x1_0000_0000_0000_0000 && |s| >= 8
    ensures U64(s, 0) == n && s[8..] == rest <==> s == Put64(n) + rest
  {
    assert Put64(n)[0..8] == Put64(n);
    SameU64(s, 0, Put64(n), 0);
    assert s == s[0..8] + s[8..];
    if s == Put64(n) + rest {
      assert s[0..8] == Put64(n) && s[8..] == rest;
    }
  }

  lemma NarrowInverse(s: seq<Byte>, n: nat, rest: seq<Byte>)
    requires n < LIMIT && |s| >= 4
    ensures U32(s, 0) == n && s[4..] == rest <==> s == Put32(n) + rest
  {
    assert Put32(n)[0..4] == Put32(n);
    SameU32(s, 0, Put32(n), 0);
    assert s == s[0..4] + s[4..];
    if s == Put32(n) + rest {
      assert s[0..4] == Put32(n) && s[4..] == rest;
    }
  }

  /** All fields of a message that ends after the last one. */
  function Decode(layout: seq<Kind>, s: seq<Byte>): Option<seq<Field>>
    decreases |layout|
  {
    if layout == [] then if s == [] then Some([]) else None
    else
      match Take(layout[0], s)
      case None => None
      case Some((f, rest)) =>
        match Decode(layout[1..], rest)
        case None => None
        case Some(fields) => Some([f] + fields)
  }

  lemma {:induction false} EncodedDecodes(layout: seq<Kind>, fields: seq<Field>)
    requires Conforms(layout, fields)
    ensures Decode(layout, Encode(layout, fields)) == Some(fields)
    decreases |layout|
  {
    if layout != [] {
      var rest := Encode(layout[1..], fields[1..]);
      TakeInverse(layout[0], EncodeField(layout[0], fields[0]) + rest, fields[0], rest);
      EncodedDecodes(layout[1..], fields[1..]);
      assert [fields[0]] + fields[1..] == fields;
    }
  }

  lemma {:induction false} DecodedIsEncoded(layout: seq<Kind>, s: seq<Byte>)
    requires Decode(layout, s).Some?
    ensures Conforms(layout, Decode(layout, s).value) && s == Encode(layout, Decode(layout, s).value)
    decreases |layout|
  {
    if layout != [] {
      var (f, rest) := Take(layout[0], s).value;
      TakeInverse(layout[0], s, f, rest);
      DecodedIsEncoded(layout[1..], rest);
      ConformsOne(layout, f, Decode(layout[1..], rest).value);
    }
  }

  lemma ConformsOne(layout: seq<Kind>, f: Field, fields: seq<Field>)
    requires layout != [] && Fits(layout[0], f) && Conforms(layout[1..], fields)
    ensures Conforms(layout, [f] + fields)
    ensures Encode(layout, [f] + fields) == EncodeField(layout[0], f) + Encode(layout[1..], fields)
  {
    assert ([f] + fields)[1..] == fields;
  }

  lemma DecodeInverse(layout: seq<Kind>, s: seq<Byte>, fields: seq<Field>)
    ensures Decode(layout, s) == Some(fields) <==> Conforms(layout, fields) && s == Encode(layout, fields)
  {
    if Conforms(layout, fields) {
      EncodedDecodes(layout, fields);
    }
    if Decode(layout, s).Some? {
      DecodedIsEncoded(layout, s);
    }
  }

  function After(done: seq<Field>, more: Option<seq<Field>>): Option<seq<Field>> {
    match more
    case None => None
    case Some(fields) => Some(done + fields)
  }

  /** A reader with a cursor. What it has read so far is the beginning of what the whole message decodes to. */
  class Reader {
    const b: seq<Byte>
    const layout: seq<Kind>
    var p: nat
    ghost var done: seq<Field>

    constructor (bytes: seq<Byte>, kinds: seq<Kind>)
      ensures b == bytes && layout == kinds && p == 0 && done == [] && Valid()
    {
      b, layout, p, done := bytes, kinds, 0, [];
      new;
      assert b[0..] == b && layout[0..] == layout;
      if Decode(layout, b).Some? {
        assert [] + Decode(layout, b).value == Decode(layout, b).value;
      }
    }

    ghost predicate Valid()
      reads this
    {
      p <= |b| && |done| <= |layout| && Decode(layout, b) == After(done, Decode(layout[|done|..], b[p..]))
    }

    method ReadStr() returns (v: Short, ok: bool)
      requires Valid() && |done| < |layout| && layout[|done|] == Text
      modifies this
      ensures Valid() && p <= |b|
      ensures ok ==> done == old(done) + [String(v)] && p == old(p) + 4 + |v|
      ensures !ok ==> Decode(layout, b).None?
    {
      ghost var rest := b[p..];
      assert layout[|done|..][0] == Text && layout[|done|..][1..] == layout[|done| + 1..];
      if p + 4 > |b| {
        return [], false;
      }
      var n := U32(b, p);
      assert rest[0..4] == b[p..p + 4];
      SameU32(b, p, rest, 0);
      if n > |b| - (p + 4) {
        return [], false;
      }
      v := b[p + 4..p + 4 + n];
      assert rest[4..4 + n] == v && rest[4 + n..] == b[p + 4 + n..];
      p := p + 4 + n;
      Append(done, String(v), Decode(layout[|done| + 1..], b[p..]));
      done := done + [String(v)];
      ok := true;
    }

    method ReadNumber(n: nat) returns (v: nat, ok: bool)
      requires Valid() && |done| < |layout|
      requires (n == 8 && layout[|done|] == Wide) || (n == 4 && layout[|done|] == Narrow)
      modifies this
      ensures Valid()
      ensures ok ==> done == old(done) + [Number(v)]
      ensures !ok ==> Decode(layout, b).None?
    {
      ghost var rest := b[p..];
      assert layout[|done|..][0] == layout[|done|] && layout[|done|..][1..] == layout[|done| + 1..];
      if p + n > |b| {
        return 0, false;
      }
      assert rest[0..n] == b[p..p + n] && rest[n..] == b[p + n..];
      if n == 8 {
        SameU64(b, p, rest, 0);
        v := U64(b, p);
      } else {
        SameU32(b, p, rest, 0);
        v := U32(b, p);
      }
      p := p + n;
      Append(done, Number(v), Decode(layout[|done| + 1..], b[p..]));
      done := done + [Number(v)];
      ok := true;
    }
  }

  lemma Append(done: seq<Field>, f: Field, more: Option<seq<Field>>)
    ensures After(done, After([f], more)) == After(done + [f], more)
  {
    if more.Some? {
      assert done + ([f] + more.value) == (done + [f]) + more.value;
    }
  }
}
