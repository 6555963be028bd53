/** `find_data` and `patch_http_url` (http.c): rewriting a request to absolute form, section 5.3.2 of RFC 7230.

    A request is the first n bytes of `mem`; the bytes after it are whatever else can be read there, for the C code
    compares past the end of the request. What lies beyond `mem` equals nothing. */
module Http {
  import opened Wire

  const SPACE: byte := 0x20
  const SLASH: byte := 0x2F
  const COLON: byte := 0x3A
  const CR: byte := 0x0D
  const LF: byte := 0x0A

  const HOST: Bytes := [0x48, 0x6F, 0x73, 0x74, 0x3A, 0x20]
  const HTTP: Bytes := [0x68, 0x74, 0x74, 0x70, 0x3A, 0x2F, 0x2F]
  const HOST_MAX: nat := 511

  const GET: Bytes := [0x47, 0x45, 0x54, 0x20]
  const POST: Bytes := [0x50, 0x4F, 0x53, 0x54, 0x20]
  const PUT: Bytes := [0x50, 0x55, 0x54, 0x20]
  const DELETE: Bytes := [0x44, 0x45, 0x4C, 0x45, 0x54, 0x45, 0x20]
  const HEAD: Bytes := [0x48, 0x45, 0x41, 0x44, 0x20]
  const OPTIONS: Bytes := [0x4F, 0x50, 0x54, 0x49, 0x4F, 0x4E, 0x53, 0x20]
  const PATCH: Bytes := [0x50, 0x41, 0x54, 0x43, 0x48, 0x20]

  /** The methods in the order in which they are tried, each with the space after it. */
  const WORDS: nat := 7

  function Word(k: nat): (w: Bytes)
    requires k < WORDS
    ensures 4 <= |w| <= 8
  {
    match k
    case 0 => GET
    case 1 => POST
    case 2 => PUT
    case 3 => DELETE
    case 4 => HEAD
    case 5 => OPTIONS
    case _ => PATCH
  }

  function Lower(b: byte): byte {
    if 0x41 <= b <= 0x5A then b + 0x20 else b
  }

  // ---- find_data ----

  /** strncasecmp finds the value at position i. */
  predicate Matches(mem: Bytes, value: Bytes, i: nat) {
    i + |value| <= |mem| && forall k :: 0 <= k < |value| ==> Lower(mem[i + k]) == Lower(value[k])
  }

  /** `find_data` compares where the first byte is exactly the value's, and two bytes before the end when it got there
      by skipping. */
  predicate Tested(mem: Bytes, n: nat, value: Bytes, i: nat)
    requires n <= |mem| && value != []
  {
    || (i + 2 < n && mem[i] == value[0])
    || (i + 2 == n && i > 0 && mem[i - 1] != value[0])
  }

  predicate Hit(mem: Bytes, n: nat, value: Bytes, i: nat)
    requires n <= |mem| && value != []
  {
    Tested(mem, n, value, i) && Matches(mem, value, i)
  }

  /** The first hit at or after position i. */
  function FindFrom(mem: Bytes, n: nat, value: Bytes, i: nat): (r: Option<nat>)
    requires n <= |mem| && value != []
    ensures r.Some? ==> i <= r.value < n && Hit(mem, n, value, r.value)
    ensures forall j :: i <= j && (r.Some? ==> j < r.value) ==> !Hit(mem, n, value, j)
    decreases n - i
  {
    if i >= n then None
    else if Hit(mem, n, value, i) then Some(i)
    else FindFrom(mem, n, value, i + 1)
  }

  function Find(mem: Bytes, n: nat, value: Bytes): (r: Option<nat>)
    requires n <= |mem| && value != []
    ensures r.Some? ==> r.value < n && Hit(mem, n, value, r.value)
    ensures forall j: nat :: (r.Some? ==> j < r.value) ==> !Hit(mem, n, value, j)
  {
    FindFrom(mem, n, value, 0)
  }

  method StrNCaseCmp(mem: Bytes, value: Bytes, i: nat) returns (same: bool)
    ensures same == Matches(mem, value, i)
  {
    var k := 0;
    while k < |value| && i + k < |mem| && Lower(mem[i + k]) == Lower(value[k])
      invariant k <= |value| && (k > 0 ==> i + k <= |mem|)
      invariant forall j :: 0 <= j < k ==> Lower(mem[i + j]) == Lower(value[j])
    {
      k := k + 1;
    }
    same := k == |value| && i + k <= |mem|;
  }

  method FindData(mem: Bytes, n: nat, value: Bytes) returns (r: Option<nat>)
    requires n <= |mem| && value != []
    ensures r == Find(mem, n, value)
  {
    var at, len := 0, n;
    var found := false;
    while !found && len > 2
      invariant at + len == n
      invariant found ==> at < n && Hit(mem, n, value, at)
      invariant !found && at > 0 && len == 2 ==> mem[at - 1] == value[0]
      invariant forall j :: 0 <= j < at ==> !Hit(mem, n, value, j)
      decreases !found, len
    {
      ghost var had := len;
      while mem[at] != value[0] && len > 2
        invariant at + len == n && 2 <= len <= had
        invariant len == 2 ==> at > 0 && mem[at - 1] != value[0]
        invariant forall j :: 0 <= j < at ==> !Hit(mem, n, value, j)
        decreases len
      {
        at, len := at + 1, len - 1;
      }
      found := StrNCaseCmp(mem, value, at);
      if !found {
        at, len := at + 1, len - 1;
      }
    }
    r := if found then Some(at) else None;
  }

  // ---- patch_http_url ----

  /** How many bytes are copied as the host name: up to a CR, and no more than fit. */
  function HostLength(mem: Bytes, at: nat, len: nat): (r: nat)
    requires len <= HOST_MAX
    ensures len <= r <= HOST_MAX && (at + len <= |mem| ==> at + r <= |mem|)
    decreases HOST_MAX - len
  {
    if len == HOST_MAX || at + len >= |mem| || mem[at + len] == CR then len else HostLength(mem, at, len + 1)
  }

  function Host(mem: Bytes, at: nat): Bytes {
    var end := at + HostLength(mem, at, 0);
    if end <= |mem| then mem[at..end] else []
  }

  /** The first method, in the order of `Word`, that is found anywhere; where, and which. */
  function FindWord(mem: Bytes, n: nat, k: nat): (r: Option<(nat, nat)>)
    requires n <= |mem| && k <= WORDS
    ensures r.Some? ==> k <= r.value.1 < WORDS && Find(mem, n, Word(r.value.1)) == Some(r.value.0)
    decreases WORDS - k
  {
    if k == WORDS then None
    else
      match Find(mem, n, Word(k))
      case Some(p) => Some((p, k))
      case None => FindWord(mem, n, k + 1)
  }

  predicate HttpAt(mem: Bytes, at: nat) {
    at + 5 <= |mem| && mem[at..at + 5] == HTTP[..5]
  }

  function Splice(data: Bytes, at: nat, span: Bytes): Bytes
    requires at <= |data|
  {
    data[..at] + span + data[at..]
  }

  /** `Overrun`: the method was matched across the end of the request, and the length left to copy is negative. */
  datatype Outcome = NoHost | NoWord | AlreadyPatched | Overrun | Patched(data: Bytes)

  function Patch(mem: Bytes, n: nat): Outcome
    requires n <= |mem|
  {
    match Find(mem, n, HOST)
    case None => NoHost
    case Some(h) =>
      match FindWord(mem, n, 0)
      case None => NoWord
      case Some((p, k)) =>
        var at := p + |Word(k)|;
        if HttpAt(mem, at) then AlreadyPatched
        else if at > n then Overrun
        else Patched(Splice(mem[..n], at, HTTP + Host(mem, h + |HOST|)))
  }

  /** A Host header is found, and the first place of the first method found reaches over the end of the request: bytes
      behind the request complete it. They are not followed by "http:". */
  ghost predicate RunsOver(mem: Bytes, n: nat)
    requires n <= |mem|
  {
    && (exists h: nat :: Hit(mem, n, HOST, h))
    && exists k: nat, p: nat :: ChosenWord(mem, n, k, p) && p + |Word(k)| > n && !HttpAt(mem, p + |Word(k)|)
  }

  /** Method k first occurs at p, and no method that is tried before it occurs at all. */
  ghost predicate ChosenWord(mem: Bytes, n: nat, k: nat, p: nat)
    requires n <= |mem|
  {
    && k < WORDS && Hit(mem, n, Word(k), p)
    && (forall q: nat :: q < p ==> !Hit(mem, n, Word(k), q))
    && (forall j: nat, q: nat :: j < k ==> !Hit(mem, n, Word(j), q))
  }

  lemma {:induction false} ChosenIsFound(mem: Bytes, n: nat, i: nat)
    requires n <= |mem| && i <= WORDS && forall j: nat, q: nat :: j < i ==> !Hit(mem, n, Word(j), q)
    ensures var r := FindWord(mem, n, i);
            && (r.None? ==> forall k: nat, p: nat :: !ChosenWord(mem, n, k, p))
            && (r.Some? ==> forall k: nat, p: nat :: ChosenWord(mem, n, k, p) <==> r.value == (p, k))
    decreases WORDS - i
  {
    hide Find, Hit, Word;
    if i < WORDS {
      var r := Find(mem, n, Word(i));
      if r.None? {
        ChosenIsFound(mem, n, i + 1);
      } else {
        assert Hit(mem, n, Word(i), r.value);
      }
    }
  }

  /** The case in which the length left to copy is negative. */
  lemma OverrunExactly(mem: Bytes, n: nat)
    requires n <= |mem|
    ensures Patch(mem, n).Overrun? <==> RunsOver(mem, n)
  {
    hide Find, FindWord, Hit, Word, HttpAt, Host, ChosenWord;
    ChosenIsFound(mem, n, 0);
  }

  method CopyHost(mem: Bytes, at: nat, hostname: array<byte>) returns (length: nat)
    requires hostname.Length >= HOST_MAX && at <= |mem|
    modifies hostname
    ensures length <= HOST_MAX && hostname[..length] == Host(mem, at)
  {
    hide HostLength;
    length := 0;
    while length < HOST_MAX && at + length < |mem| && mem[at + length] != CR
      invariant length <= HOST_MAX && at + length <= |mem|
      invariant HostLength(mem, at, length) == HostLength(mem, at, 0)
      invariant forall k :: 0 <= k < length ==> hostname[k] == mem[at + k]
    {
      HostGrows(mem, at, length);
      hostname[length] := mem[at + length];
      length := length + 1;
    }
    HostEnds(mem, at, length);
  }

  lemma HostGrows(mem: Bytes, at: nat, len: nat)
    requires len < HOST_MAX && at + len < |mem| && mem[at + len] != CR
    ensures HostLength(mem, at, len) == HostLength(mem, at, len + 1)
  {
  }

  lemma HostEnds(mem: Bytes, at: nat, len: nat)
    requires len <= HOST_MAX && (len == HOST_MAX || at + len >= |mem| || mem[at + len] == CR)
    ensures HostLength(mem, at, len) == len
  {
  }

  /** The chain of alternatives in `patch_http_url`; `word` is the one found. */
  method ChooseWord(mem: Bytes, n: nat) returns (pos: Option<nat>, word: Bytes)
    requires n <= |mem|
    ensures var r := FindWord(mem, n, 0);
            && (r.None? ==> pos.None?)
            && (r.Some? ==> pos == Some(r.value.0) && word == Word(r.value.1))
  {
    hide Find;
    word := GET;
    pos := FindData(mem, n, word);
    if pos.None? {
      word := POST;
      pos := FindData(mem, n, word);
      if pos.None? {
        word := PUT;
        pos := FindData(mem, n, word);
        if pos.None? {
          word := DELETE;
          pos := FindData(mem, n, word);
          if pos.None? {
            word := HEAD;
            pos := FindData(mem, n, word);
            if pos.None? {
              word := OPTIONS;
              pos := FindData(mem, n, word);
              if pos.None? {
                word := PATCH;
                pos := FindData(mem, n, word);
              }
            }
          }
        }
      }
    }
  }

  /** memcpy */
  method Copy(to: array<byte>, at: nat, from: Bytes)
    requires at + |from| <= to.Length
    modifies to
    ensures to[..at + |from|] == old(to[..at]) + from && to[at + |from|..] == old(to[at + |from|..])
  {
    for i := 0 to |from|
      invariant to[..at] == old(to[..at]) && to[at..at + i] == from[..i] && to[at + i..] == old(to[at + i..])
    {
      to[at + i] := from[i];
    }
    assert to[..at + |from|] == to[..at] + to[at..at + |from|];
  }

  lemma Assemble(mem: Bytes, n: nat, at: nat, host: Bytes, out: Bytes)
    requires at <= n <= |mem| && out == [] + mem[..at] + HTTP + host + mem[at..n]
    ensures out == Splice(mem[..n], at, HTTP + host)
  {
    assert mem[..n][..at] == mem[..at] && mem[..n][at..] == mem[at..n];
  }

  /** `patch_http_url`; the result is the new length, or None for the null pointer. What C would copy when a method runs
      over the end is undefined. */
  method PatchHttpUrl(mem: Bytes, n: nat, buffer: array<byte>) returns (newLen: Option<nat>)
    requires n <= |mem| && !RunsOver(mem, n)
    requires n + |HTTP| + HOST_MAX <= buffer.Length
    modifies buffer
    ensures match Patch(mem, n)
            case Patched(data) =>
              newLen == Some(|data|) && |data| <= buffer.Length && buffer[..|data|] == data
            case _ => newLen == None && buffer[..] == old(buffer[..])
  {
    hide Find, FindWord, HostLength, Host, Hit, HttpAt, RunsOver;
    OverrunExactly(mem, n);
    var host := FindData(mem, n, HOST);
    if host.None? {
      return None;
    }
    HitFits(mem, n, HOST, host.value);
    var hostname := new byte[1024];
    var length := CopyHost(mem, host.value + |HOST|, hostname);
    var pos, word := ChooseWord(mem, n);
    if pos.None? {
      return None;
    }
    var at := pos.value + |word|;
    HitFits(mem, n, word, pos.value);
    if HttpAt(mem, at) {
      return None;
    }
    CopyPatched(mem, n, at, hostname[..length], buffer);
    newLen := Some(n + |HTTP| + length);
  }

  /** The four calls of memcpy. */
  method CopyPatched(mem: Bytes, n: nat, at: nat, host: Bytes, buffer: array<byte>)
    requires at <= n <= |mem| && n + |HTTP| + |host| <= buffer.Length
    modifies buffer
    ensures buffer[..n + |HTTP| + |host|] == Splice(mem[..n], at, HTTP + host)
  {
    hide Splice;
    Copy(buffer, 0, mem[..at]);
    Copy(buffer, at, HTTP);
    Copy(buffer, at + |HTTP|, host);
    Copy(buffer, at + |HTTP| + |host|, mem[at..n]);
    Assemble(mem, n, at, host, buffer[..n + |HTTP| + |host|]);
  }

  lemma HitFits(mem: Bytes, n: nat, value: Bytes, i: nat)
    requires n <= |mem| && value != [] && Hit(mem, n, value, i)
    ensures i + |value| <= |mem|
  {
  }
}
