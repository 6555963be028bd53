/** `parse_tls_header` (tls.c): finding the server name in a TLS ClientHello.

    The three parsers advance a position through the buffer and write the name into a 512-byte array; every index
    they use is checked here to lie inside the buffer, for arbitrary input. Each is proved against a function that
    returns the name, and TlsHello relates those functions to the grammar of section 7.4.1.2 of RFC 5246 and
    section 3 of RFC 6066. `charSigned` tells whether plain `char` is signed on the platform. */
module Tls {
  import opened Wire

  const FQDN_MAX: nat := 255

  function Min(x: nat, y: nat): nat {
    if x < y then x else y
  }

  // ---- What the parsers find ----

  /** The first entry of type 0 (host_name) at or after `pos` of a server name list. */
  function FindName(d: Bytes, pos: nat): Option<Bytes>
    decreases |d| - pos
  {
    if pos + 3 >= |d| || pos + 3 + U16At(d, pos + 1) > |d| then None
    else
      var len := U16At(d, pos + 1);
      if d[pos] == 0 then Some(d[pos + 3..pos + 3 + Min(len, FQDN_MAX)]) else FindName(d, pos + 3 + len)
  }

  /** The name in the first extension of type 0 (server_name) at or after `pos`. */
  function FindExtension(d: Bytes, pos: nat): Option<Bytes>
    decreases |d| - pos
  {
    if pos + 4 > |d| then None
    else
      var len := U16At(d, pos + 2);
      if d[pos] == 0 && d[pos + 1] == 0 then
        if pos + 4 + len > |d| then None else FindName(d[pos + 4..pos + 4 + len], 2)
      else FindExtension(d, pos + 4 + len)
  }

  /** Position after the session id, the cipher suites and the compression methods, if their lengths lie in d[..n]. */
  function SkipLists(d: Bytes, n: nat, pos: nat): Option<nat>
    requires n <= |d|
  {
    if pos + 1 > n then None
    else
      var p := pos + 1 + d[pos];
      if p + 2 > n then None
      else
        var q := p + 2 + U16At(d, p);
        if q + 1 > n then None else Some(q + 1 + d[q])
  }

  function MajorTooLow(major: byte, charSigned: bool): bool {
    major < 3 || (charSigned && major >= 0x80)
  }

  /** Length of the record at the start of the data, if that is a whole handshake record with a ClientHello. */
  function HelloLength(d: Bytes, charSigned: bool): (n: Option<nat>)
    ensures n.Some? ==> n.value <= |d|
  {
    if |d| < 5 || (d[0] >= 0x80 && d[2] == 1) || d[0] != 0x16 || MajorTooLow(d[1], charSigned)
       || |d| < U16At(d, 3) + 5 || U16At(d, 3) == 0 || d[5] != 1 then None
    else Some(U16At(d, 3) + 5)
  }

  /** The extensions block of the ClientHello. */
  function FindBlock(d: Bytes, charSigned: bool): Option<Bytes> {
    match HelloLength(d, charSigned)
    case None => None
    case Some(n) =>
      match SkipLists(d, n, 43)
      case None => None
      case Some(pos) =>
        if pos + 2 > n || pos + 2 + U16At(d, pos) > n then None
        else Some(d[pos + 2..pos + 2 + U16At(d, pos)])
  }

  function FindHost(d: Bytes, charSigned: bool): Option<Bytes> {
    match FindBlock(d, charSigned)
    case None => None
    case Some(block) => FindExtension(block, 0)
  }

  // ---- What ends up in the buffer ----

  /** The bytes before the first NUL. */
  function CString(b: Bytes): Bytes {
    if b == [] || b[0] == 0 then [] else [b[0]] + CString(b[1..])
  }

  /** strncpy: copy up to a NUL, fill the rest of the count with NULs. */
  function StrNCpy(name: Bytes): (b: Bytes)
    ensures |b| == |name|
  {
    CStringLength(name);
    CString(name) + seq(|name| - |CString(name)|, _ => 0)
  }

  lemma CStringLength(b: Bytes)
    ensures |CString(b)| <= |b|
  {
  }

  function Stored(buffer: Bytes, found: Option<Bytes>): Bytes {
    match found
    case None => buffer
    case Some(name) => if |name| < |buffer| then StrNCpy(name) + [0] + buffer[|name| + 1..] else buffer
  }

  // ---- The parsers ----

  /** strncpy: first the characters, then the padding. */
  method StrNCpyTo(hostname: array<byte>, name: Bytes)
    requires |name| < hostname.Length
    modifies hostname
    ensures hostname[..] == StrNCpy(name) + old(hostname[..])[|name|..]
  {
    ghost var text, pad := CString(name), StrNCpy(name);
    CStringLength(name);
    var i := 0;
    while i < |name| && name[i] != 0
      invariant 0 <= i <= |name|
      invariant |text| == i + |CString(name[i..])| && text[i..] == CString(name[i..])
      invariant hostname[..i] == pad[..i] && hostname[i..] == old(hostname[..])[i..]
    {
      assert name[i..][1..] == name[i + 1..];
      assert text[i] == text[i..][0] && text[i + 1..] == text[i..][1..];
      hostname[i] := name[i];
      i := i + 1;
    }
    assert |text| == i;
    while i < |name|
      invariant |text| <= i <= |name|
      invariant hostname[..i] == pad[..i] && hostname[i..] == old(hostname[..])[i..]
    {
      hostname[i] := 0;
      i := i + 1;
    }
    assert hostname[..] == hostname[..i] + hostname[i..];
  }

  method ParseServerName(data: Bytes, hostname: array<byte>)
    requires hostname.Length > FQDN_MAX
    modifies hostname
    ensures hostname[..] == Stored(old(hostname[..]), FindName(data, 2))
  {
    var pos := 2;
    while pos + 3 < |data|
      invariant 2 <= pos && FindName(data, 2) == FindName(data, pos) && hostname[..] == old(hostname[..])
      decreases |data| - pos
    {
      var len := U16At(data, pos + 1);
      if pos + 3 + len > |data| {
        return;
      }
      if data[pos] == 0 {
        len := Min(len, FQDN_MAX);
        StrNCpyTo(hostname, data[pos + 3..pos + 3 + len]);
        hostname[len] := 0;
        return;
      }
      pos := pos + 3 + len;
    }
  }

  method ParseExtensions(data: Bytes, hostname: array<byte>)
    requires hostname.Length > FQDN_MAX
    modifies hostname
    ensures hostname[..] == Stored(old(hostname[..]), FindExtension(data, 0))
  {
    var pos := 0;
    while pos + 4 <= |data|
      invariant FindExtension(data, 0) == FindExtension(data, pos) && hostname[..] == old(hostname[..])
      decreases |data| - pos
    {
      var len := U16At(data, pos + 2);
      if data[pos] == 0 && data[pos + 1] == 0 {
        if pos + 4 + len > |data| {
          return;
        }
        ParseServerName(data[pos + 4..pos + 4 + len], hostname);
        return;
      }
      pos := pos + 4 + len;
    }
  }

  /** `parse_tls_header` */
  method ParseTlsHeader(data: Bytes, hostname: array<byte>, charSigned: bool)
    requires hostname.Length > FQDN_MAX
    modifies hostname
    ensures hostname[..] == Stored(old(hostname[..]), FindHost(data, charSigned))
  {
    var pos := 5;
    var dataLen := |data|;
    if dataLen < 5 {
      return;
    }
    if data[0] >= 0x80 && data[2] == 1 {
      return;
    }
    if data[0] != 0x16 {
      return;
    }
    var major, minor := data[1], data[2];
    if MajorTooLow(major, charSigned) {
      return;
    }
    var len := U16At(data, 3) + 5;
    dataLen := Min(dataLen, len);
    if dataLen < len {
      return;
    }
    if pos + 1 > dataLen {
      return;
    }
    if data[pos] != 1 {
      return;
    }
    assert HelloLength(data, charSigned) == Some(dataLen);
    pos := pos + 38;
    if pos + 1 > dataLen {
      return;
    }
    len := data[pos];
    pos := pos + 1 + len;
    if pos + 2 > dataLen {
      return;
    }
    len := U16At(data, pos);
    pos := pos + 2 + len;
    if pos + 1 > dataLen {
      return;
    }
    len := data[pos];
    pos := pos + 1 + len;
    if pos == dataLen && major == 3 && minor == 0 {
      return;
    }
    if pos + 2 > dataLen {
      return;
    }
    len := U16At(data, pos);
    pos := pos + 2;
    if pos + len > dataLen {
      return;
    }
    assert FindBlock(data, charSigned) == Some(data[pos..pos + len]);
    ParseExtensions(data[pos..pos + len], hostname);
  }
}
