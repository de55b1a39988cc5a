/** The check of a signed user certificate (OpenSSH PROTOCOL.certkeys) against the request it was made for. */
module Certificate {
  import opened Bytes
  import opened Wire

  function Ascii(s: string): (b: seq<Byte>)
    ensures |b| == |s|
  {
    seq(|s|, i requires 0 <= i < |s| => (s[i] as int) % 256)
  }

  const KIND: seq<Byte> := Ascii("ssh-ed25519-cert-v01@openssh.com")
  const ED25519: seq<Byte> := Ascii("ssh-ed25519")
  const FORCE: seq<Byte> := Ascii("force-command")
  const PTY: seq<Byte> := Ascii("permit-pty")
  const PORTS: seq<Byte> := Ascii("permit-port-forwarding")
  const AGENT: seq<Byte> := Ascii("permit-agent-forwarding")
  const X11: seq<Byte> := Ascii("permit-X11-forwarding")
  const MAX_BLOB: nat := 8192

  /** Seconds as a signed 64-bit integer. */
  type Seconds = t: int | -0x8000_0000_0000_0000 <= t < 0x8000_0000_0000_0000

  /** The request; key is the decoded public key blob, None when its text is not an Ed25519 key. */
  datatype Request = Request(
    key: Option<seq<Byte>>, serial: nat, keyId: Short, principal: Short, validAfter: Seconds, validBefore: Seconds,
    force: Short, pty: bool, ports: bool, agent: bool, x11: bool)

  predicate ValidRequest(r: Request) {
    r.serial < 0x1_0000_0000_0000_0000 && |r.principal| < 0x1000_0000 && |r.force| < 0x1000_0000
  }

  function KeyBlob(raw: seq<Byte>): seq<Byte> {
    [0, 0, 0, 11] + ED25519 + [0, 0, 0, 32] + raw
  }

  /** The public key blob is taken as it was decoded; its digest stands for it. */
  datatype Digest = Sha256(of: seq<Byte>)

  function Wrap(t: Seconds): nat {
    t % 0x1_0000_0000_0000_0000
  }

  function Critical(r: Request): Short
    requires ValidRequest(r)
  {
    if r.force == [] then [] else Str(FORCE) + Str(Str(r.force))
  }

  function Allowed(r: Request): set<seq<Byte>> {
    (if r.pty then {PTY} else {}) + (if r.ports then {PORTS} else {})
    + (if r.agent then {AGENT} else {}) + (if r.x11 then {X11} else {})
  }

  /** Extension names with empty values, each allowed name exactly once, in some order. */
  predicate ExtensionsMatch(e: seq<Byte>, allowed: set<seq<Byte>>)
    decreases |e|
  {
    if e == [] then allowed == {}
    else
      match TakeStr(e)
      case None => false
      case Some((name, rest)) =>
        |rest| >= 4 && U32(rest, 0) == 0 && name in allowed && ExtensionsMatch(rest[4..], allowed - {name})
  }

  const LAYOUT: seq<Kind> :=
    [Text, Text, Text, Wide, Narrow, Text, Text, Wide, Wide, Text, Text, Text, Text, Text]

  function SignatureBlob(raw: seq<Byte>): Short
    requires |raw| == 64
  {
    [0, 0, 0, 11] + ED25519 + [0, 0, 0, 64] + raw
  }

  /** Kind, nonce, key, serial, type, key ID and principal. */
  predicate IdentityMatches(f: seq<Field>, r: Request)
    requires |f| >= 7
  {
    && f[0] == String(KIND) && f[1].String?
    && f[2].String? && |f[2].text| == 32 && r.key == Some(KeyBlob(f[2].text))
    && f[3] == Number(r.serial) && f[4] == Number(1)
    && f[5] == String(r.keyId) && (|r.principal| + 4 < LIMIT && f[6] == String(Str(r.principal)))
  }

  /** Validity, critical options, extensions and the reserved field. */
  predicate ScopeMatches(f: seq<Field>, r: Request)
    requires |f| >= 12 && ValidRequest(r)
  {
    && ValidityMatches(f, r)
    && f[9] == String(Critical(r)) && f[10].String? && ExtensionsMatch(f[10].text, Allowed(r)) && f[11] == String([])
  }

  type Verifier = (seq<Byte>, seq<Byte>, seq<Byte>) -> bool

  /** An Ed25519 signature field: the algorithm name and 64 bytes. */
  predicate SignatureShape(s: seq<Byte>) {
    |s| == 83 && s[..4] == [0, 0, 0, 11] && s[4..15] == ED25519 && s[15..19] == [0, 0, 0, 64]
  }

  /** The CA key, and its signature over all that precedes the signature field. */
  predicate SignatureMatches(f: seq<Field>, signed: seq<Byte>, ca: seq<Byte>, verify: Verifier)
    requires |f| >= 14
  {
    && |ca| == 51 && f[12] == String(ca) && f[13].String? && SignatureShape(f[13].text)
    && verify(ca[19..], signed, f[13].text[19..])
  }

  function Signed(b: seq<Byte>): seq<Byte> {
    if |b| < 87 then [] else b[..|b| - 87]
  }

  ghost predicate AcceptsFields(d: Option<seq<Field>>, b: seq<Byte>, ca: seq<Byte>, r: Request, verify: Verifier)
    requires ValidRequest(r)
  {
    d.Some? && |d.value| == 14 && IdentityMatches(d.value, r) && ScopeMatches(d.value, r)
    && SignatureMatches(d.value, Signed(b), ca, verify)
  }

  ghost predicate Accepts(b: seq<Byte>, ca: seq<Byte>, r: Request, verify: Verifier)
    requires ValidRequest(r)
  {
    |b| <= MAX_BLOB && AcceptsFields(Decode(LAYOUT, b), b, ca, r, verify)
  }

  /** A big-endian length prefix is four given bytes exactly when it has that value. */
  lemma Prefix32(s: seq<Byte>, i: nat, n: nat)
    requires i + 4 <= |s| && n < LIMIT
    ensures U32(s, i) == n <==> s[i..i + 4] == Put32(n)
  {
    assert Put32(n)[0..4] == Put32(n);
    SameU32(s, i, Put32(n), 0);
  }

  method MatchExtensions(bytes: seq<Byte>, all: set<seq<Byte>>) returns (ok: bool)
    ensures ok <==> ExtensionsMatch(bytes, all)
  {
    var extensions, allowed := bytes, all;
    while |extensions| > 0
      invariant ExtensionsMatch(bytes, all) <==> ExtensionsMatch(extensions, allowed)
      decreases |extensions|
    {
      if |extensions| < 4 {
        return false;
      }
      var n := U32(extensions, 0);
      if n > |extensions| - 8 {
        return false;
      }
      var name := extensions[4..4 + n];
      extensions := extensions[4 + n..];
      var size := U32(extensions, 0);
      if size != 0 || name !in allowed {
        return false;
      }
      allowed := allowed - {name};
      extensions := extensions[4..];
    }
    return |allowed| == 0;
  }

  /** What has been read agrees with what the whole message decodes to, if it decodes. */
  lemma ReadPrefix(x: Reader)
    requires x.Valid()
    ensures var d := Decode(x.layout, x.b);
            d.Some? ==> |d.value| >= |x.done| && forall i :: 0 <= i < |x.done| ==> d.value[i] == x.done[i]
  {
  }

  predicate NamesLaidOut(layout: seq<Kind>) {
    |layout| == 14 && layout[3] == Wide && layout[4] == Narrow && layout[5] == Text && layout[6] == Text
  }

  method ReadIdentity(x: Reader, r: Request) returns (ok: bool)
    requires x.Valid() && x.done == [] && ValidRequest(r) && NamesLaidOut(x.layout)
    requires x.layout[0] == Text && x.layout[1] == Text && x.layout[2] == Text
    modifies x
    ensures ok ==> x.Valid() && |x.done| == 7 && IdentityMatches(x.done, r)
    ensures !ok ==> var d := Decode(x.layout, x.b); d.Some? ==> |d.value| >= 7 ==> !IdentityMatches(d.value, r)
  {
    var kind: Short, nonce: Short, pub: Short;
    kind, ok := x.ReadStr();
    ReadPrefix(x);
    if !ok || kind != KIND {
      return false;
    }
    nonce, ok := x.ReadStr();
    if !ok {
      return false;
    }
    pub, ok := x.ReadStr();
    ReadPrefix(x);
    if !ok || |pub| != 32 {
      return false;
    }
    if r.key.None? || Sha256(r.key.value) != Sha256(KeyBlob(pub)) {
      return false;
    }
    ok := ReadNames(x, r);
  }

  method ReadNames(x: Reader, r: Request) returns (ok: bool)
    requires x.Valid() && |x.done| == 3 && ValidRequest(r) && NamesLaidOut(x.layout)
    requires x.done[0] == String(KIND) && x.done[1].String?
    requires x.done[2].String? && |x.done[2].text| == 32 && r.key == Some(KeyBlob(x.done[2].text))
    modifies x
    ensures ok ==> x.Valid() && |x.done| == 7 && IdentityMatches(x.done, r)
    ensures !ok ==> var d := Decode(x.layout, x.b); d.Some? ==> |d.value| >= 7 ==> !IdentityMatches(d.value, r)
  {
    ok := ReadSerial(x, r);
    if !ok {
      return;
    }
    var id: Short, principal: Short;
    id, ok := x.ReadStr();
    ReadPrefix(x);
    if !ok || id != r.keyId {
      return false;
    }
    principal, ok := x.ReadStr();
    ReadPrefix(x);
    PrincipalMatches(principal, r.principal);
    if !ok || |principal| != |r.principal| + 4 || U32(principal, 0) != |r.principal| || principal[4..] != r.principal {
      return false;
    }
  }

  /** The serial number and the type, with what was read before them. */
  method ReadSerial(x: Reader, r: Request) returns (ok: bool)
    requires x.Valid() && |x.done| == 3 && ValidRequest(r) && NamesLaidOut(x.layout)
    modifies x
    ensures ok ==> x.Valid() && x.done == old(x.done) + [Number(r.serial), Number(1)]
    ensures !ok ==> var d := Decode(x.layout, x.b); d.Some? ==> |d.value| >= 7 ==> !IdentityMatches(d.value, r)
  {
    var serial, typ: nat;
    serial, ok := x.ReadNumber(8);
    ReadPrefix(x);
    if !ok || serial != r.serial {
      return false;
    }
    typ, ok := x.ReadNumber(4);
    ReadPrefix(x);
    if !ok || typ != 1 {
      return false;
    }
  }

  predicate ValidityMatches(f: seq<Field>, r: Request)
    requires |f| >= 9 && ValidRequest(r)
  {
    f[7] == Number(Wrap(r.validAfter)) && f[8] == Number(Wrap(r.validBefore))
  }

  method ReadValidity(x: Reader, r: Request) returns (ok: bool)
    requires x.Valid() && |x.done| == 7 && ValidRequest(r) && |x.layout| == 14 && x.layout[7] == Wide
             && x.layout[8] == Wide
    modifies x
    ensures ok ==> x.Valid() && |x.done| == 9 && x.done[..7] == old(x.done) && ValidityMatches(x.done, r)
    ensures !ok ==> var d := Decode(x.layout, x.b); d.Some? ==> |d.value| >= 9 ==> !ValidityMatches(d.value, r)
  {
    var after, before: nat;
    after, ok := x.ReadNumber(8);
    ReadPrefix(x);
    if !ok || after != Wrap(r.validAfter) {
      return false;
    }
    before, ok := x.ReadNumber(8);
    ReadPrefix(x);
    if !ok || before != Wrap(r.validBefore) {
      return false;
    }
  }

  method ReadScope(x: Reader, r: Request) returns (ok: bool)
    requires x.Valid() && |x.done| == 7 && ValidRequest(r) && |x.layout| == 14
    requires x.layout[7] == Wide && x.layout[8] == Wide && x.layout[9] == Text && x.layout[10] == Text
             && x.layout[11] == Text
    modifies x
    ensures ok ==> x.Valid() && |x.done| == 12 && x.done[..7] == old(x.done) && ScopeMatches(x.done, r)
    ensures !ok ==> var d := Decode(x.layout, x.b); d.Some? ==> |d.value| >= 12 ==> !ScopeMatches(d.value, r)
  {
    var critical: Short, extensions: Short, reserved: Short;
    ok := ReadValidity(x, r);
    if !ok {
      return;
    }
    critical, ok := x.ReadStr();
    ReadPrefix(x);
    if !ok || critical != Critical(r) {
      return false;
    }
    extensions, ok := x.ReadStr();
    ReadPrefix(x);
    if !ok {
      return false;
    }
    ok := MatchExtensions(extensions, Allowed(r));
    if !ok {
      return false;
    }
    reserved, ok := x.ReadStr();
    ReadPrefix(x);
    if !ok || |reserved| != 0 {
      return false;
    }
  }

  method ReadAuthority(x: Reader, caKey: seq<Byte>, verify: Verifier) returns (ok: bool)
    requires x.Valid() && |x.done| == 12 && |x.layout| == 14 && x.layout[12] == Text && x.layout[13] == Text
    modifies x
    ensures ok ==> Decode(x.layout, x.b) == Some(x.done) && |x.done| == 14 && x.done[..12] == old(x.done)
                   && SignatureMatches(x.done, Signed(x.b), caKey, verify)
    ensures !ok ==> var d := Decode(x.layout, x.b); d.Some? ==> |d.value| == 14 ==>
            !SignatureMatches(d.value, Signed(x.b), caKey, verify)
  {
    var ca: Short, signature: Short;
    ca, ok := x.ReadStr();
    ReadPrefix(x);
    if !ok || ca != caKey {
      return false;
    }
    var signedEnd := x.p;
    signature, ok := x.ReadStr();
    ReadPrefix(x);
    if !ok {
      return;
    }
    AllRead(x);
    if x.p != |x.b| {
      return false;
    }
    ok := SignatureFits(signature);
    if !ok {
      return;
    }
    assert x.b[..signedEnd] == Signed(x.b);
    ok := |ca| == 51 && verify(ca[19..], x.b[..signedEnd], signature[19..]);
  }

  method SignatureFits(signature: seq<Byte>) returns (ok: bool)
    ensures ok <==> SignatureShape(signature)
  {
    if |signature| != 83 {
      return false;
    }
    Prefix32(signature, 0, 11);
    Prefix32(signature, 15, 64);
    assert Put32(11) == [0, 0, 0, 11] && Put32(64) == [0, 0, 0, 64];
    assert signature[0..4] == signature[..4];
    return U32(signature, 0) == 11 && signature[4..15] == ED25519 && U32(signature, 15) == 64;
  }

  lemma AllRead(x: Reader)
    requires x.Valid() && |x.done| == |x.layout|
    ensures Decode(x.layout, x.b) == if x.p == |x.b| then Some(x.done) else None
  {
    assert x.done + [] == x.done;
  }

  lemma SameFront(f: seq<Field>, g: seq<Field>, n: nat)
    requires n <= |f| && n <= |g| && f[..n] == g[..n]
    ensures forall i :: 0 <= i < n ==> f[i] == g[i]
  {
    assert forall i :: 0 <= i < n ==> f[i] == f[..n][i] && g[i] == g[..n][i];
  }

  predicate LaidOut(layout: seq<Kind>) {
    && NamesLaidOut(layout) && layout[0] == Text && layout[1] == Text && layout[2] == Text
    && layout[7] == Wide && layout[8] == Wide && layout[9] == Text && layout[10] == Text && layout[11] == Text
    && layout[12] == Text && layout[13] == Text
  }

  method VerifyLaidOut(layout: seq<Kind>, b: seq<Byte>, caKey: seq<Byte>, r: Request,
                       verify: Verifier) returns (ok: bool)
    requires ValidRequest(r) && LaidOut(layout)
    ensures ok <==> AcceptsFields(Decode(layout, b), b, caKey, r, verify)
  {
    var x := new Reader(b, layout);
    ok := ReadIdentity(x, r);
    if !ok {
      return;
    }
    ghost var identity := x.done;
    ok := ReadScope(x, r);
    if !ok {
      return;
    }
    ghost var scope := x.done;
    SameFront(scope, identity, 7);
    ok := ReadAuthority(x, caKey, verify);
    if ok {
      SameFront(x.done, scope, 12);
    }
  }

  /** Accepts a blob exactly when it decodes to fields that match, in one pass over the blob. */
  method VerifyCertificate(b: seq<Byte>, caKey: seq<Byte>, r: Request, verify: Verifier) returns (ok: bool)
    requires ValidRequest(r)
    ensures ok <==> Accepts(b, caKey, r, verify)
  {
    if |b| > MAX_BLOB {
      return false;
    }
    ok := VerifyLaidOut(LAYOUT, b, caKey, r, verify);
  }

  lemma PrincipalMatches(v: Short, principal: Short)
    requires |principal| < 0x1000_0000
    ensures |v| == |principal| + 4 && U32(v, 0) == |principal| && v[4..] == principal <==> v == Str(principal)
  {
    if |v| >= 4 {
      Prefix32(v, 0, |principal|);
      assert v == v[0..4] + v[4..];
    }
    if v == Str(principal) {
      assert v[0..4] == Put32(|principal|) && v[4..] == principal;
    }
  }

  // ----- which blobs are accepted

  function ExtensionBytes(names: seq<Short>): seq<Byte> {
    if names == [] then [] else Str(names[0]) + [0, 0, 0, 0] + ExtensionBytes(names[1..])
  }

  /** The names in order are the allowed ones, each once. */
  predicate Lists(names: seq<Short>, allowed: set<seq<Byte>>) {
    && (forall i, j :: 0 <= i < j < |names| ==> names[i] != names[j])
    && (forall i :: 0 <= i < |names| ==> names[i] in allowed)
    && (forall n :: n in allowed ==> n in names)
  }

  lemma {:induction false} ExtensionsListed(e: seq<Byte>, allowed: set<seq<Byte>>) returns (names: seq<Short>)
    requires ExtensionsMatch(e, allowed)
    ensures Lists(names, allowed) && e == ExtensionBytes(names)
    decreases |e|
  {
    if e == [] {
      names := [];
    } else {
      var (name, rest) := TakeStr(e).value;
      TakeStrInverse(e, name, rest);
      var tail := ExtensionsListed(rest[4..], allowed - {name});
      names := [name] + tail;
      Prefix32(rest, 0, 0);
      assert Put32(0) == [0, 0, 0, 0];
      assert rest == rest[0..4] + rest[4..];
      ListOneMore(name, tail, allowed);
    }
  }

  lemma ListOneMore(name: Short, tail: seq<Short>, allowed: set<seq<Byte>>)
    requires Lists(tail, allowed - {name}) && name in allowed
    ensures Lists([name] + tail, allowed)
    ensures ExtensionBytes([name] + tail) == Str(name) + ([0, 0, 0, 0] + ExtensionBytes(tail))
  {
    var names := [name] + tail;
    assert names[1..] == tail;
    forall n | n in allowed
      ensures n in names
    {
      assert n == names[0] || n in allowed - {name};
    }
  }

  lemma {:induction false} ListedExtensionsMatch(names: seq<Short>, allowed: set<seq<Byte>>)
    requires Lists(names, allowed)
    ensures ExtensionsMatch(ExtensionBytes(names), allowed)
    decreases |names|
  {
    var e := ExtensionBytes(names);
    if names == [] {
      assert allowed == {};
    } else {
      var name, tail := names[0], names[1..];
      var rest := [0, 0, 0, 0] + ExtensionBytes(tail);
      assert e == Str(name) + rest;
      TakeStrInverse(e, name, rest);
      Prefix32(rest, 0, 0);
      assert Put32(0) == [0, 0, 0, 0] == rest[0..4] && rest[4..] == ExtensionBytes(tail);
      assert forall i :: 0 <= i < |tail| ==> tail[i] == names[i + 1];
      forall n | n in allowed - {name}
        ensures n in tail
      {
        var i :| 0 <= i < |names| && names[i] == n;
        assert tail[i - 1] == n;
      }
      ListedExtensionsMatch(tail, allowed - {name});
    }
  }

  /** One extension section fits one set of allowed names. */
  lemma {:induction false} ExtensionsDetermine(e: seq<Byte>, a: set<seq<Byte>>, b: set<seq<Byte>>)
    requires ExtensionsMatch(e, a) && ExtensionsMatch(e, b)
    ensures a == b
    decreases |e|
  {
    if e != [] {
      var (name, rest) := TakeStr(e).value;
      ExtensionsDetermine(rest[4..], a - {name}, b - {name});
      assert a == (a - {name}) + {name} && b == (b - {name}) + {name};
    }
  }

  /** The fields of the certificate for a request, with the free parts filled in. */
  function FieldsFor(r: Request, raw: Short, nonce: Short, names: Short, ca: Short, signature: Short): seq<Field>
    requires ValidRequest(r)
  {
    [String(KIND), String(nonce), String(raw), Number(r.serial), Number(1), String(r.keyId), String(Str(r.principal)),
     Number(Wrap(r.validAfter)), Number(Wrap(r.validBefore)), String(Critical(r)), String(names), String([]),
     String(ca), String(signature)]
  }

  /** The wire encoding of a certificate for the request. */
  ghost predicate IsCertificate(b: seq<Byte>, ca: seq<Byte>, r: Request, raw: Short, nonce: Short, names: seq<Short>,
                                sig: seq<Byte>)
    requires ValidRequest(r)
  {
    && |raw| == 32 && r.key == Some(KeyBlob(raw)) && |sig| == 64 && |ca| == 51
    && Lists(names, Allowed(r)) && |ExtensionBytes(names)| < LIMIT
    && Conforms(LAYOUT, FieldsFor(r, raw, nonce, ExtensionBytes(names), ca, SignatureBlob(sig)))
    && b == Encode(LAYOUT, FieldsFor(r, raw, nonce, ExtensionBytes(names), ca, SignatureBlob(sig)))
  }

  lemma SignatureParts(s: Short)
    requires |s| == 83 && s[..4] == [0, 0, 0, 11] && s[4..15] == ED25519 && s[15..19] == [0, 0, 0, 64]
    ensures s == SignatureBlob(s[19..])
  {
    assert s == s[..4] + s[4..15] + s[15..19] + s[19..];
  }

  lemma SignatureBlobParts(raw: seq<Byte>)
    requires |raw| == 64
    ensures var s := SignatureBlob(raw);
            |s| == 83 && s[..4] == [0, 0, 0, 11] && s[4..15] == ED25519 && s[15..19] == [0, 0, 0, 64] && s[19..] == raw
  {
    assert |ED25519| == 11;
  }

  /**
   A blob is accepted exactly when it is the encoding of the request with some nonce, the allowed extensions in some
   order, the CA key and a signature that verifies over all bytes before it, with nothing left over.
   */
  lemma AcceptedBlobs(b: seq<Byte>, ca: seq<Byte>, r: Request, verify: Verifier)
    requires ValidRequest(r)
    ensures Accepts(b, ca, r, verify) <==>
            |b| <= MAX_BLOB && exists raw, nonce, names, sig ::
              IsCertificate(b, ca, r, raw, nonce, names, sig) && verify(ca[19..], Signed(b), sig)
  {
    if Accepts(b, ca, r, verify) {
      var raw, nonce, names, sig := AcceptedIsCertificate(b, ca, r, verify);
    }
    if |b| <= MAX_BLOB && exists raw, nonce, names, sig ::
         IsCertificate(b, ca, r, raw, nonce, names, sig) && verify(ca[19..], Signed(b), sig) {
      var raw, nonce, names, sig :| IsCertificate(b, ca, r, raw, nonce, names, sig) && verify(ca[19..], Signed(b), sig);
      CertificateIsAccepted(b, ca, r, raw, nonce, names, sig, verify);
    }
  }

  lemma AcceptedIsCertificate(b: seq<Byte>, ca: seq<Byte>, r: Request, verify: Verifier)
    returns (raw: Short, nonce: Short, names: seq<Short>, sig: seq<Byte>)
    requires ValidRequest(r) && Accepts(b, ca, r, verify)
    ensures IsCertificate(b, ca, r, raw, nonce, names, sig) && verify(ca[19..], Signed(b), sig)
  {
    var f := Decode(LAYOUT, b).value;
    DecodeInverse(LAYOUT, b, f);
    raw, nonce, sig := f[2].text, f[1].text, f[13].text[19..];
    names := ExtensionsListed(f[10].text, Allowed(r));
    SignatureParts(f[13].text);
    FieldsAreFor(f, r, raw, nonce, f[10].text, ca, f[13].text);
  }

  lemma CertificateIsAccepted(b: seq<Byte>, ca: seq<Byte>, r: Request, raw: Short, nonce: Short, names: seq<Short>,
                              sig: seq<Byte>, verify: Verifier)
    requires ValidRequest(r) && |b| <= MAX_BLOB
    requires IsCertificate(b, ca, r, raw, nonce, names, sig) && verify(ca[19..], Signed(b), sig)
    ensures Accepts(b, ca, r, verify)
  {
    var f := FieldsFor(r, raw, nonce, ExtensionBytes(names), ca, SignatureBlob(sig));
    DecodeInverse(LAYOUT, b, f);
    ListedExtensionsMatch(names, Allowed(r));
    SignatureBlobParts(sig);
    ForMatches(f, r, raw, nonce, ExtensionBytes(names), ca, SignatureBlob(sig));
  }

  lemma FieldsAreFor(f: seq<Field>, r: Request, raw: Short, nonce: Short, names: Short, ca: Short, signature: Short)
    requires ValidRequest(r) && |f| == 14 && IdentityMatches(f, r) && ScopeMatches(f, r)
    requires f[1] == String(nonce) && f[2] == String(raw) && f[10] == String(names) && f[12] == String(ca)
             && f[13] == String(signature)
    ensures f == FieldsFor(r, raw, nonce, names, ca, signature)
  {
  }

  lemma ForMatches(f: seq<Field>, r: Request, raw: Short, nonce: Short, names: Short, ca: Short, signature: Short)
    requires ValidRequest(r) && f == FieldsFor(r, raw, nonce, names, ca, signature)
    requires |raw| == 32 && r.key == Some(KeyBlob(raw)) && ExtensionsMatch(names, Allowed(r))
    ensures |f| == 14 && IdentityMatches(f, r) && ScopeMatches(f, r)
    ensures f[12] == String(ca) && f[13] == String(signature)
  {
    ForIdentity(f, r, raw, nonce, names, ca, signature);
  }

  lemma ForIdentity(f: seq<Field>, r: Request, raw: Short, nonce: Short, names: Short, ca: Short, signature: Short)
    requires ValidRequest(r) && f == FieldsFor(r, raw, nonce, names, ca, signature)
    requires |raw| == 32 && r.key == Some(KeyBlob(raw))
    ensures |f| == 14 && IdentityMatches(f, r)
  {
  }

  // ----- a blob determines its request

  lemma NamesDiffer()
    ensures |PTY| == 10 && |PORTS| == 22 && |AGENT| == 23 && |X11| == 21
  {
  }

  /** Two requests that accept one blob agree on everything the certificate is about. */
  lemma OneBlobOneRequest(b: seq<Byte>, ca: seq<Byte>, r: Request, q: Request, verify: Verifier)
    requires ValidRequest(r) && ValidRequest(q)
    requires Accepts(b, ca, r, verify) && Accepts(b, ca, q, verify)
    ensures r == q
  {
    var f := Decode(LAYOUT, b).value;
    SameNumbers(f, r, q);
    SameForce(r, q);
    ExtensionsDetermine(f[10].text, Allowed(r), Allowed(q));
    SameFlags(r, q);
  }

  lemma SameFlags(r: Request, q: Request)
    requires Allowed(r) == Allowed(q)
    ensures r.pty == q.pty && r.ports == q.ports && r.agent == q.agent && r.x11 == q.x11
  {
    NamesDiffer();
    FlagNames(r);
    FlagNames(q);
  }

  lemma FlagNames(r: Request)
    ensures PTY in Allowed(r) <==> r.pty
    ensures PORTS in Allowed(r) <==> r.ports
    ensures AGENT in Allowed(r) <==> r.agent
    ensures X11 in Allowed(r) <==> r.x11
  {
    NamesDiffer();
  }

  lemma SameNumbers(f: seq<Field>, r: Request, q: Request)
    requires ValidRequest(r) && ValidRequest(q) && |f| == 14
    requires IdentityMatches(f, r) && IdentityMatches(f, q) && ScopeMatches(f, r) && ScopeMatches(f, q)
    ensures r.key == q.key && r.serial == q.serial && r.keyId == q.keyId && r.principal == q.principal
    ensures r.validAfter == q.validAfter && r.validBefore == q.validBefore && Critical(r) == Critical(q)
  {
    SameStr(r.principal, q.principal);
  }

  lemma SameStr(v: Short, w: Short)
    requires Str(v) == Str(w)
    ensures v == w
  {
    assert v == Str(v)[4..] && w == Str(w)[4..];
  }

  lemma SameForce(r: Request, q: Request)
    requires ValidRequest(r) && ValidRequest(q) && Critical(r) == Critical(q)
    ensures r.force == q.force
  {
    if r.force != [] && q.force != [] {
      var n := |Str(FORCE)|;
      assert Critical(r)[n..] == Str(Str(r.force)) && Critical(q)[n..] == Str(Str(q.force));
      SameStr(Str(r.force), Str(q.force));
      SameStr(r.force, q.force);
    }
  }
}
