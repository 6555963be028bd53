/** The ClientHello grammar and its relation to the parser: what a serializer builds is parsed back, and whatever
    the parser finds was built that way. Serializers take the bytes that follow as their last argument. */
module TlsHello {
  import opened Wire
  import opened Tls

  /** A 16-bit length, the body, and what follows. */
  function Field(body: Bytes, rest: Bytes): Bytes {
    Be16(|body|) + (body + rest)
  }

  /** A length byte, the body, and what follows. */
  function ShortField(body: Bytes, rest: Bytes): Bytes
    requires |body| < 0x100
  {
    [|body|] + (body + rest)
  }

  /** An entry of a server name list that is not a host name. */
  datatype OtherName = OtherName(kind: byte, name: Bytes) {
    predicate Valid() { kind != 0 && |name| < 0x1_0000 }
  }

  /** An extension other than server_name. */
  datatype OtherExtension = OtherExtension(kind: nat, body: Bytes) {
    predicate Valid() { 0 < kind < 0x1_0000 && |body| < 0x1_0000 }
  }

  predicate ValidNames(names: seq<OtherName>) {
    names == [] || (names[0].Valid() && ValidNames(names[1..]))
  }

  predicate ValidExtensions(exts: seq<OtherExtension>) {
    exts == [] || (exts[0].Valid() && ValidExtensions(exts[1..]))
  }

  function NameBytes(names: seq<OtherName>, rest: Bytes): Bytes {
    if names == [] then rest else [names[0].kind] + Field(names[0].name, NameBytes(names[1..], rest))
  }

  function ExtensionBytes(exts: seq<OtherExtension>, rest: Bytes): Bytes {
    if exts == [] then rest else Be16(exts[0].kind) + Field(exts[0].body, ExtensionBytes(exts[1..], rest))
  }

  /** The server_name extension: other names, the first host name, then anything. */
  datatype ServerNames = ServerNames(listLength: Bytes, before: seq<OtherName>, host: Bytes, after: Bytes) {
    predicate Valid() {
      |listLength| == 2 && ValidNames(before) && |host| < 0x1_0000 && host + after != []
    }

    function List(): Bytes { NameBytes(before, [0] + Field(host, after)) }

    function Bytes(): Bytes { listLength + List() }
  }

  /** The extensions block: others, server_name, then anything. */
  datatype Extensions = Extensions(before: seq<OtherExtension>, names: ServerNames, after: Bytes) {
    predicate Valid() {
      ValidExtensions(before) && names.Valid() && |names.Bytes()| < 0x1_0000
    }

    function Bytes(): Bytes { ExtensionBytes(before, [0] + ([0] + Field(names.Bytes(), after))) }
  }

  /** A ClientHello in one TLS record. `fixed` is the handshake length, the client version and the random. */
  datatype Hello = Hello(major: byte, minor: byte, fixed: Bytes, session: Bytes, ciphers: Bytes, compression: Bytes,
                         extensions: Extensions, after: Bytes) {
    predicate Valid(charSigned: bool) {
      && !MajorTooLow(major, charSigned) && |fixed| == 37 && Lengths() && extensions.Valid()
      && |extensions.Bytes()| < 0x1_0000 && |Body()| < 0x1_0000
    }

    predicate Lengths() { |session| < 0x100 && |ciphers| < 0x1_0000 && |compression| < 0x100 }

    function Lists(rest: Bytes): Bytes
      requires Lengths()
    {
      ShortField(session, Field(ciphers, ShortField(compression, rest)))
    }

    function Body(): Bytes
      requires Lengths()
    {
      [1] + (fixed + Lists(Field(extensions.Bytes(), after)))
    }

    function Record(rest: Bytes): Bytes
      requires Lengths()
    {
      [0x16] + ([major] + ([minor] + Field(Body(), rest)))
    }
  }

  function FirstName(host: Bytes): Bytes {
    host[..Min(|host|, FQDN_MAX)]
  }

  // ---- Building and parsing back ----

  /** These bytes are found at this position. */
  ghost predicate At(d: Bytes, pos: nat, piece: Bytes) {
    pos + |piece| <= |d| && d[pos..pos + |piece|] == piece
  }

  lemma Split(d: Bytes, pos: nat, a: Bytes, b: Bytes)
    requires At(d, pos, a + b)
    ensures At(d, pos, a) && At(d, pos + |a|, b)
  {
    var s := d[pos..pos + |a + b|];
    assert d[pos..pos + |a|] == s[..|a|];
    assert d[pos + |a|..pos + |a| + |b|] == s[|a|..];
  }

  lemma AtSelf(d: Bytes)
    ensures At(d, 0, d)
  {
    assert d[0..|d|] == d;
  }

  lemma ByteAt(d: Bytes, pos: nat, b: byte, rest: Bytes)
    requires At(d, pos, [b] + rest)
    ensures d[pos] == b && At(d, pos + 1, rest)
  {
    Split(d, pos, [b], rest);
    assert d[pos] == d[pos..pos + 1][0];
  }

  lemma NumberAt(d: Bytes, pos: nat, n: nat, rest: Bytes)
    requires n < 0x1_0000 && At(d, pos, Be16(n) + rest)
    ensures U16At(d, pos) == n && At(d, pos + 2, rest)
  {
    Split(d, pos, Be16(n), rest);
    var s := d[pos..pos + 2];
    assert d[pos] == s[0] && d[pos + 1] == s[1];
  }

  lemma FieldAt(d: Bytes, pos: nat, body: Bytes, rest: Bytes)
    requires |body| < 0x1_0000 && At(d, pos, Field(body, rest))
    ensures pos + 2 + |body| + |rest| <= |d| && U16At(d, pos) == |body|
    ensures d[pos + 2..pos + 2 + |body|] == body && At(d, pos + 2, body) && At(d, pos + 2 + |body|, rest)
  {
    NumberAt(d, pos, |body|, body + rest);
    Split(d, pos + 2, body, rest);
  }

  lemma ShortFieldAt(d: Bytes, pos: nat, body: Bytes, rest: Bytes)
    requires |body| < 0x100 && At(d, pos, ShortField(body, rest))
    ensures pos + 1 + |body| + |rest| <= |d| && d[pos] == |body|
    ensures At(d, pos + 1, body) && At(d, pos + 1 + |body|, rest)
  {
    ByteAt(d, pos, |body|, body + rest);
    Split(d, pos + 1, body, rest);
  }

  lemma {:induction false} NamesParse(d: Bytes, pos: nat, names: seq<OtherName>, host: Bytes, after: Bytes)
    requires ValidNames(names) && |host| < 0x1_0000 && host + after != []
    requires At(d, pos, NameBytes(names, [0] + Field(host, after)))
    ensures FindName(d, pos) == Some(FirstName(host))
    decreases |names|
  {
    hide At, Be16, Field;
    if names == [] {
      ByteAt(d, pos, 0, Field(host, after));
      FieldAt(d, pos + 1, host, after);
      var cut := Min(|host|, FQDN_MAX);
      assert d[pos + 3..pos + 3 + cut] == d[pos + 3..pos + 3 + |host|][..cut];
    } else {
      var rest := NameBytes(names[1..], [0] + Field(host, after));
      ByteAt(d, pos, names[0].kind, Field(names[0].name, rest));
      FieldAt(d, pos + 1, names[0].name, rest);
      NamesParse(d, pos + 3 + |names[0].name|, names[1..], host, after);
      NotAtEnd(names[1..], host, after);
    }
  }

  lemma NotAtEnd(names: seq<OtherName>, host: Bytes, after: Bytes)
    ensures NameBytes(names, [0] + Field(host, after)) != []
  {
  }

  lemma {:induction false} ExtensionsParse(d: Bytes, pos: nat, exts: seq<OtherExtension>, names: ServerNames,
                                            after: Bytes)
    requires Extensions(exts, names, after).Valid()
    requires At(d, pos, Extensions(exts, names, after).Bytes())
    ensures FindExtension(d, pos) == Some(FirstName(names.host))
    decreases |exts|
  {
    hide At, Be16;
    if exts == [] {
      var b := names.Bytes();
      ByteAt(d, pos, 0, [0] + Field(b, after));
      ByteAt(d, pos + 1, 0, Field(b, after));
      FieldAt(d, pos + 2, b, after);
      AtSelf(b);
      Split(b, 0, names.listLength, names.List());
      NamesParse(b, 2, names.before, names.host, names.after);
    } else {
      var rest := Extensions(exts[1..], names, after).Bytes();
      NumberAt(d, pos, exts[0].kind, Field(exts[0].body, rest));
      FieldAt(d, pos + 2, exts[0].body, rest);
      ExtensionsParse(d, pos + 4 + |exts[0].body|, exts[1..], names, after);
    }
  }

  lemma ListsSkipped(h: Hello, d: Bytes, n: nat, pos: nat, rest: Bytes) returns (end: nat)
    requires h.Lengths() && At(d, pos, h.Lists(rest)) && pos + |h.Lists(rest)| <= n <= |d|
    ensures SkipLists(d, n, pos) == Some(end) && At(d, end, rest) && end + |rest| == pos + |h.Lists(rest)|
  {
    hide At, Be16;
    var c := ShortField(h.compression, rest);
    ShortFieldAt(d, pos, h.session, Field(h.ciphers, c));
    var p := pos + 1 + |h.session|;
    FieldAt(d, p, h.ciphers, c);
    var q := p + 2 + |h.ciphers|;
    ShortFieldAt(d, q, h.compression, rest);
    end := q + 1 + |h.compression|;
  }

  lemma RecordParses(h: Hello, rest: Bytes, charSigned: bool)
    requires h.Valid(charSigned)
    ensures HelloLength(h.Record(rest), charSigned) == Some(|h.Body()| + 5)
    ensures At(h.Record(rest), 6, h.fixed + h.Lists(Field(h.extensions.Bytes(), h.after)))
    ensures |h.Body()| == 1 + |h.fixed| + |h.Lists(Field(h.extensions.Bytes(), h.after))|
  {
    hide At, Be16, Field, Hello.Lists, Extensions.Bytes, U16At;
    var d := h.Record(rest);
    AtSelf(d);
    var f := Field(h.Body(), rest);
    ByteAt(d, 0, 0x16, [h.major] + ([h.minor] + f));
    ByteAt(d, 1, h.major, [h.minor] + f);
    ByteAt(d, 2, h.minor, f);
    FieldAt(d, 3, h.Body(), rest);
    ByteAt(d, 5, 1, h.fixed + h.Lists(Field(h.extensions.Bytes(), h.after)));
  }

  lemma BlockParses(h: Hello, rest: Bytes, charSigned: bool)
    requires h.Valid(charSigned)
    ensures FindBlock(h.Record(rest), charSigned) == Some(h.extensions.Bytes())
  {
    hide At, Be16, SkipLists, HelloLength, Hello.Record, Hello.Body, Hello.Lists, Extensions.Bytes;
    var d := h.Record(rest);
    var tail := Field(h.extensions.Bytes(), h.after);
    RecordParses(h, rest, charSigned);
    Split(d, 6, h.fixed, h.Lists(tail));
    var at := ListsSkipped(h, d, |h.Body()| + 5, 43, tail);
    FieldAt(d, at, h.extensions.Bytes(), h.after);
  }

  /** Round trip: from any data that starts with a serialized ClientHello the parser takes exactly the first host
      name, cut to 255 bytes. */
  lemma HelloParses(h: Hello, rest: Bytes, charSigned: bool)
    requires h.Valid(charSigned)
    ensures FindHost(h.Record(rest), charSigned) == Some(FirstName(h.extensions.names.host))
  {
    var x := h.extensions;
    BlockParses(h, rest, charSigned);
    AtSelf(x.Bytes());
    ExtensionsParse(x.Bytes(), 0, x.before, x.names, x.after);
  }

  predicate NoNul(b: Bytes) {
    forall i :: 0 <= i < |b| ==> b[i] != 0
  }

  lemma {:induction false} CStringOfText(host: Bytes, tail: Bytes)
    requires NoNul(host)
    ensures CString(host + ([0] + tail)) == host && CString(host) == host
  {
    if host != [] {
      CStringOfText(host[1..], tail);
      assert (host + ([0] + tail))[1..] == host[1..] + ([0] + tail);
    } else {
      assert host + ([0] + tail) == [0] + tail;
    }
  }

  /** ... and the buffer then holds that name as a C string, whatever was in it before. */
  lemma HelloNameStored(h: Hello, rest: Bytes, charSigned: bool, buffer: Bytes)
    requires h.Valid(charSigned) && |buffer| > FQDN_MAX
    requires 1 <= |h.extensions.names.host| <= FQDN_MAX && NoNul(h.extensions.names.host)
    ensures CString(Stored(buffer, FindHost(h.Record(rest), charSigned))) == h.extensions.names.host
  {
    var host := h.extensions.names.host;
    HelloParses(h, rest, charSigned);
    assert FirstName(host) == host;
    CStringOfText(host, buffer[|host| + 1..]);
    assert StrNCpy(host) == host;
    assert host + [0] + buffer[|host| + 1..] == host + ([0] + buffer[|host| + 1..]);
  }

  // ---- Whatever is found was built like that ----

  lemma FieldFound(d: Bytes, pos: nat)
    requires pos + 2 <= |d| && pos + 2 + U16At(d, pos) <= |d|
    ensures var next := pos + 2 + U16At(d, pos);
            d[pos..] == Field(d[pos + 2..next], d[next..])
  {
    Be16OfU16(d, pos);
    var next := pos + 2 + U16At(d, pos);
    assert d[pos..] == d[pos..pos + 2] + (d[pos + 2..next] + d[next..]);
  }

  lemma {:induction false} NamesFound(d: Bytes, pos: nat) returns (names: seq<OtherName>, host: Bytes, after: Bytes)
    requires FindName(d, pos).Some?
    ensures ValidNames(names) && |host| < 0x1_0000 && host + after != [] && pos + 3 < |d|
    ensures d[pos..] == NameBytes(names, [0] + Field(host, after))
    ensures FindName(d, pos) == Some(FirstName(host))
    decreases |d| - pos
  {
    var next := pos + 3 + U16At(d, pos + 1);
    FieldFound(d, pos + 1);
    assert d[pos..] == [d[pos]] + d[pos + 1..];
    if d[pos] == 0 {
      names, host, after := [], d[pos + 3..next], d[next..];
      var cut := Min(|host|, FQDN_MAX);
      assert d[pos + 3..pos + 3 + cut] == host[..cut];
    } else {
      names, host, after := NamesFound(d, next);
      names := [OtherName(d[pos], d[pos + 3..next])] + names;
    }
  }

  lemma {:induction false} ExtensionsFound(d: Bytes, pos: nat) returns (x: Extensions)
    requires FindExtension(d, pos).Some?
    ensures x.Valid() && d[pos..] == x.Bytes()
    ensures FindExtension(d, pos) == Some(FirstName(x.names.host))
    decreases |d| - pos
  {
    hide Be16, Field, FindName, NameBytes;
    var next := pos + 4 + U16At(d, pos + 2);
    FieldFound(d, pos + 2);
    if d[pos] == 0 && d[pos + 1] == 0 {
      var b := d[pos + 4..next];
      var names, host, rest := NamesFound(b, 2);
      assert b == b[..2] + b[2..];
      x := Extensions([], ServerNames(b[..2], names, host, rest), d[next..]);
      assert d[pos..] == [d[pos]] + ([d[pos + 1]] + d[pos + 2..]);
    } else {
      var y := ExtensionsFound(d, next);
      Be16OfU16(d, pos);
      assert d[pos..] == d[pos..pos + 2] + d[pos + 2..];
      x := Extensions([OtherExtension(U16At(d, pos), d[pos + 4..next])] + y.before, y.names, y.after);
    }
  }

  lemma ListsFound(d: Bytes, n: nat, pos: nat) returns (session: Bytes, ciphers: Bytes, compression: Bytes, at: nat)
    requires n <= |d| && SkipLists(d, n, pos).Some? && SkipLists(d, n, pos).value <= n
    ensures |session| < 0x100 && |ciphers| < 0x1_0000 && |compression| < 0x100 && at == SkipLists(d, n, pos).value
    ensures pos < at <= n && d[pos..n] == ShortField(session, Field(ciphers, ShortField(compression, d[at..n])))
  {
    var l: nat := d[pos];
    var p := pos + 1 + l;
    var q := p + 2 + U16At(d, p);
    var m: nat := d[q];
    at := q + 1 + m;
    session, ciphers, compression := ListsSliced(d[..n], pos, l, p, q, m);
    assert d[..n][pos..] == d[pos..n] && d[..n][at..] == d[at..n];
    assert U16At(d[..n], p) == U16At(d, p);
  }

  lemma ListsSliced(r: Bytes, pos: nat, l: nat, p: nat, q: nat, m: nat)
    returns (session: Bytes, ciphers: Bytes, compression: Bytes)
    requires p == pos + 1 + l && p + 2 <= |r| && q == p + 2 + U16At(r, p) && q + 1 + m <= |r|
    requires r[pos] == l && r[q] == m
    ensures |session| == l && |ciphers| == q - p - 2 && |compression| == m
    ensures r[pos..] == ShortField(session, Field(ciphers, ShortField(compression, r[q + 1 + m..])))
  {
    hide Field, ShortField;
    session, ciphers, compression := r[pos + 1..p], r[p + 2..q], r[q + 1..q + 1 + m];
    ShortFieldFound(r, q, m);
    FieldFound(r, p);
    ShortFieldFound(r, pos, l);
  }

  lemma ShortFieldFound(r: Bytes, pos: nat, l: nat)
    requires pos + 1 + l <= |r| && r[pos] == l
    ensures r[pos..] == ShortField(r[pos + 1..pos + 1 + l], r[pos + 1 + l..])
  {
    assert r[pos..] == [r[pos]] + (r[pos + 1..pos + 1 + l] + r[pos + 1 + l..]);
  }

  /** Conversely, whenever the parser finds a name the data starts with a serialized ClientHello, and the name found
      is its first host name. */
  lemma FoundWasSerialized(d: Bytes, charSigned: bool) returns (h: Hello, rest: Bytes)
    requires FindHost(d, charSigned).Some?
    ensures h.Valid(charSigned) && d == h.Record(rest)
    ensures FindHost(d, charSigned) == Some(FirstName(h.extensions.names.host))
  {
    hide Be16, Field, ShortField, FindExtension;
    var n := HelloLength(d, charSigned).value;
    var session, ciphers, compression, at := ListsFound(d, n, 43);
    var end := at + 2 + U16At(d, at);
    var block := d[at + 2..end];
    var x := ExtensionsFound(block, 0);
    assert block[0..] == block;
    h := Hello(d[1], d[2], d[6..43], session, ciphers, compression, x, d[end..n]);
    rest := d[n..];
    BodyFound(d, n, at, h);
    RecordFound(d, n, h, rest);
  }

  lemma BodyFound(d: Bytes, n: nat, at: nat, h: Hello)
    requires 43 < at && at + 2 <= n <= |d| && at + 2 + U16At(d, at) <= n && d[5] == 1
    requires h.Lengths() && h.fixed == d[6..43] && h.after == d[at + 2 + U16At(d, at)..n]
    requires h.extensions.Bytes() == d[at + 2..at + 2 + U16At(d, at)]
    requires d[43..n] == h.Lists(d[at..n])
    ensures h.Body() == d[5..n]
  {
    hide ShortField, Field;
    var r, end := d[..n], at + 2 + U16At(d, at);
    assert U16At(r, at) == U16At(d, at);
    FieldFound(r, at);
    assert r[at + 2..end] == d[at + 2..end] && r[end..] == d[end..n] && r[at..] == d[at..n];
    assert d[5..n] == [d[5]] + (d[6..43] + d[43..n]);
  }

  lemma RecordFound(d: Bytes, n: nat, h: Hello, rest: Bytes)
    requires 5 <= n <= |d| && h.Lengths() && h.Body() == d[5..n] && n == 5 + U16At(d, 3)
    requires d[0] == 0x16 && h.major == d[1] && h.minor == d[2] && rest == d[n..]
    ensures d == h.Record(rest)
  {
    FieldFound(d, 3);
    assert d == [d[0]] + ([d[1]] + ([d[2]] + d[3..]));
  }
}
