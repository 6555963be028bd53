/** What `patch_http_url` does to a request in origin form: section 5.3.2 of RFC 7230. */
module HttpRewrite {
  import opened Wire
  import opened Http

  /** The request starts with method k, a space and a target that starts with a slash. */
  predicate OriginForm(mem: Bytes, n: nat, k: nat)
    requires n <= |mem| && k < WORDS
  {
    var a := |Word(k)|;
    a < n && mem[..a] == Word(k) && mem[a] == SLASH
  }

  /** No method that is tried before method k is found anywhere. */
  ghost predicate NoEarlierWord(mem: Bytes, n: nat, k: nat)
    requires n <= |mem| && k <= WORDS
  {
    forall j: nat :: j < k ==> Find(mem, n, Word(j)).None?
  }

  /** The request with the scheme and the host between the method and the target. */
  function Absolute(mem: Bytes, n: nat, k: nat, h: nat): Bytes
    requires n <= |mem| && k < WORDS && |Word(k)| <= n
  {
    Splice(mem[..n], |Word(k)|, HTTP + Host(mem, h + |HOST|))
  }

  // ---- The words ----

  /** Only the last byte is a space; there is no slash, no colon and no lower-case letter. */
  lemma WordShape(k: nat)
    requires k < WORDS
    ensures var w := Word(k);
            && 4 <= |w| <= 8 && w[|w| - 1] == SPACE
            && (forall i :: 0 <= i < |w| - 1 ==> 0x41 <= w[i] <= 0x5A)
  {
  }

  /** No method ends in the same two letters as another. */
  lemma WordEndings(j: nat, k: nat)
    requires j < k < WORDS
    ensures var v, w := Word(j), Word(k);
            v[|v| - 3] != w[|w| - 3] || v[|v| - 2] != w[|w| - 2]
  {
  }

  /** Folding case keeps letters apart from the rest. */
  lemma LowerKeeps(x: byte, y: byte)
    requires Lower(x) == Lower(y)
    ensures !(0x41 <= x <= 0x5A) && !(0x61 <= x <= 0x7A) ==> x == y
    ensures 0x41 <= x <= 0x5A && 0x41 <= y <= 0x5A ==> x == y
  {
  }

  lemma MatchAt(mem: Bytes, value: Bytes, i: nat, k: nat)
    requires Matches(mem, value, i) && k < |value|
    ensures Lower(mem[i + k]) == Lower(value[k])
  {
  }

  lemma MatchIntro(mem: Bytes, value: Bytes, i: nat)
    requires i + |value| <= |mem| && mem[i..i + |value|] == value
    ensures Matches(mem, value, i)
  {
    forall k | 0 <= k < |value| ensures Lower(mem[i + k]) == Lower(value[k]) {
      assert mem[i..i + |value|][k] == mem[i + k];
    }
  }

  /** A match of a method whose bytes include a slash or, before its last byte, a space is impossible. */
  lemma MatchAvoids(mem: Bytes, j: nat, p: nat, i: nat)
    requires j < WORDS && Matches(mem, Word(j), p) && p <= i < p + |Word(j)|
    ensures mem[i] != SLASH
    ensures i < p + |Word(j)| - 1 ==> mem[i] != SPACE
    ensures i == p + |Word(j)| - 1 ==> mem[i] == SPACE
  {
    WordShape(j);
    MatchAt(mem, Word(j), p, i - p);
    LowerKeeps(mem[i], Word(j)[i - p]);
    LowerKeeps(Word(j)[i - p], mem[i]);
  }

  // ---- Where the first method is found ----

  lemma {:induction false} FindWordAt(mem: Bytes, n: nat, i: nat, k: nat)
    requires n <= |mem| && i <= k < WORDS
    requires NoEarlierWord(mem, n, k) && Find(mem, n, Word(k)).Some?
    ensures FindWord(mem, n, i) == Some((Find(mem, n, Word(k)).value, k))
    decreases k - i
  {
    hide Find, Word;
    if i < k {
      assert Find(mem, n, Word(i)).None?;
      FindWordAt(mem, n, i + 1, k);
    }
  }

  /** The method at the start of the request is found there. */
  lemma FindAtStart(mem: Bytes, n: nat, k: nat)
    requires n <= |mem| && k < WORDS && OriginForm(mem, n, k)
    ensures Find(mem, n, Word(k)) == Some(0)
  {
    hide Find;
    WordShape(k);
    assert mem[0] == mem[..|Word(k)|][0];
    assert mem[0..0 + |Word(k)|] == Word(k);
    MatchIntro(mem, Word(k), 0);
    assert Hit(mem, n, Word(k), 0);
  }

  /** If the first method found is an earlier one, it stands behind the slash. */
  lemma EarlierIsBehind(mem: Bytes, n: nat, k: nat, j: nat, p: nat)
    requires n <= |mem| && j < k < WORDS && OriginForm(mem, n, k) && Matches(mem, Word(j), p)
    ensures p > |Word(k)|
  {
    hide Word, Matches, Lower;
    var a := |Word(k)|;
    var e := p + |Word(j)| - 1;
    WordShape(j);
    WordShape(k);
    assert forall i :: 0 <= i < a ==> mem[i] == Word(k)[i] by {
      forall i | 0 <= i < a ensures mem[i] == Word(k)[i] { assert mem[..a][i] == mem[i]; }
    }
    if p <= a {
      if e >= a {
        MatchAvoids(mem, j, p, a);
      } else {
        MatchAvoids(mem, j, p, e);
        assert e == a - 1;
        var v := Word(j);
        MatchAt(mem, v, p, |v| - 3);
        MatchAt(mem, v, p, |v| - 2);
        LowerKeeps(mem[a - 2], v[|v| - 2]);
        LowerKeeps(mem[a - 3], v[|v| - 3]);
        WordEndings(j, k);
      }
    }
  }

  // ---- The rewrite ----

  /** Which method the rewrite goes by: one found first in the order of trying, at its first place. */
  lemma {:induction false} FirstWord(mem: Bytes, n: nat, i: nat)
    requires n <= |mem| && i <= WORDS
    ensures var r := FindWord(mem, n, i);
            && (r.None? ==> forall j :: i <= j < WORDS ==> Find(mem, n, Word(j)).None?)
            && (r.Some? ==> forall j :: i <= j < r.value.1 ==> Find(mem, n, Word(j)).None?)
    decreases WORDS - i
  {
    hide Find, Word;
    if i < WORDS {
      FirstWord(mem, n, i + 1);
    }
  }

  lemma SplicesDiffer(data: Bytes, a: nat, b: nat, span: Bytes)
    requires a < b <= |data| && span != [] && data[a] != span[0]
    ensures Splice(data, a, span) != Splice(data, b, span)
  {
    assert Splice(data, a, span)[a] == span[0];
    assert Splice(data, b, span)[a] == data[a];
  }

  /** A request in origin form with a Host header is put into absolute form if and only if no method that is tried
      earlier occurs anywhere in it. */
  lemma RewriteIsAbsolute(mem: Bytes, n: nat, k: nat, h: nat)
    requires n <= |mem| && k < WORDS && OriginForm(mem, n, k) && Find(mem, n, HOST) == Some(h)
    ensures Patch(mem, n) == Patched(Absolute(mem, n, k, h)) <==> NoEarlierWord(mem, n, k)
  {
    hide Find, FindWord, Host, Word, Splice;
    var a := |Word(k)|;
    FindAtStart(mem, n, k);
    FirstWord(mem, n, 0);
    if NoEarlierWord(mem, n, k) {
      FindWordAt(mem, n, 0, k);
      assert FindWord(mem, n, 0) == Some((0, k));
      NotHttp(mem, a);
    } else {
      var j: nat :| j < k && Find(mem, n, Word(j)).Some?;
      var (p, w) := FindWord(mem, n, 0).value;
      assert w < k;
      assert Hit(mem, n, Word(w), p);
      EarlierIsBehind(mem, n, k, w, p);
      var b := p + |Word(w)|;
      if b <= n {
        SplicesDiffer(mem[..n], a, b, HTTP + Host(mem, h + |HOST|));
      }
    }
  }

  lemma NotHttp(mem: Bytes, a: nat)
    requires a < |mem| && mem[a] == SLASH
    ensures !HttpAt(mem, a)
  {
    if a + 5 <= |mem| {
      assert mem[a..a + 5][0] != HTTP[..5][0];
    }
  }

  /** Taking the inserted span out again gives back the request. */
  lemma RewriteRestores(mem: Bytes, n: nat, k: nat, h: nat)
    requires n <= |mem| && k < WORDS && OriginForm(mem, n, k)
    ensures var a, span, out := |Word(k)|, HTTP + Host(mem, h + |HOST|), Absolute(mem, n, k, h);
            && |out| == n + |span| && out[a..a + |span|] == span
            && out[..a] + out[a + |span|..] == mem[..n]
  {
    hide Word, Host;
    assert mem[..n][..|Word(k)|] + mem[..n][|Word(k)|..] == mem[..n];
  }

  /** The host is the field up to its CR if and only if that comes within 511 bytes. */
  lemma {:induction false} HostIsField(mem: Bytes, at: nat, len: nat, end: nat)
    requires at + len <= at + end < |mem| && mem[at + end] == CR && len <= HOST_MAX
    requires forall i :: at + len <= i < at + end ==> mem[i] != CR
    ensures HostLength(mem, at, len) == end <==> end <= HOST_MAX
    decreases end - len
  {
    if len < end && len < HOST_MAX {
      HostIsField(mem, at, len + 1, end);
    }
  }

  /** ... and it is that field, or its first 511 bytes. */
  lemma {:induction false} HostContent(mem: Bytes, at: nat, len: nat, end: nat)
    requires at + len <= at + end < |mem| && mem[at + end] == CR && len <= HOST_MAX
    requires forall i :: at + len <= i < at + end ==> mem[i] != CR
    ensures HostLength(mem, at, len) == if end <= HOST_MAX then end else HOST_MAX
    ensures len == 0 ==> Host(mem, at) == mem[at..at + (if end <= HOST_MAX then end else HOST_MAX)]
    decreases end - len
  {
    if len < end && len < HOST_MAX {
      HostContent(mem, at, len + 1, end);
    }
  }

  // ---- Rewriting again ----

  /** The same memory with the span inserted at a. */
  function Grown(mem: Bytes, a: nat, span: Bytes): Bytes
    requires a <= |mem|
  {
    mem[..a] + span + mem[a..]
  }

  lemma GrownAt(mem: Bytes, a: nat, span: Bytes, i: nat)
    requires a <= |mem| && i < |mem| + |span|
    ensures Grown(mem, a, span)[i] == if i < a then mem[i] else if i < a + |span| then span[i - a] else mem[i - |span|]
  {
  }

  /** A match of a method in the grown request was there before: the span holds no space and a slash follows it. */
  lemma MatchGoesBack(mem: Bytes, a: nat, span: Bytes, j: nat, p: nat)
    requires j < WORDS && 0 < a < |mem| && mem[a - 1] == SPACE && mem[a] == SLASH && SPACE !in span
    requires Matches(Grown(mem, a, span), Word(j), p)
    ensures p + |Word(j)| <= a || p > a + |span|
  {
    var g, e := Grown(mem, a, span), p + |Word(j)| - 1;
    GrownAt(mem, a, span, a - 1);
    GrownAt(mem, a, span, a + |span|);
    if p <= a + |span| && e >= a {
      if e >= a + |span| {
        MatchAvoids(g, j, p, a + |span|);
      } else {
        MatchAvoids(g, j, p, e);
        GrownAt(mem, a, span, e);
      }
    }
  }

  lemma SameMatch(mem: Bytes, p: nat, g: Bytes, q: nat, value: Bytes)
    requires p + |value| <= |mem| <==> q + |value| <= |g|
    requires p + |value| <= |mem| ==> mem[p..p + |value|] == g[q..q + |value|]
    ensures Matches(mem, value, p) <==> Matches(g, value, q)
  {
    if p + |value| <= |mem| {
      var x, y := mem[p..p + |value|], g[q..q + |value|];
      assert forall k :: 0 <= k < |value| ==> x[k] == mem[p + k];
      assert forall k :: 0 <= k < |value| ==> y[k] == g[q + k];
    }
  }

  lemma MatchShifts(mem: Bytes, a: nat, span: Bytes, value: Bytes, p: nat)
    requires a <= |mem|
    ensures p + |value| <= a ==> (Matches(mem, value, p) <==> Matches(Grown(mem, a, span), value, p))
    ensures p >= a ==> (Matches(mem, value, p) <==> Matches(Grown(mem, a, span), value, p + |span|))
  {
    var g := Grown(mem, a, span);
    if p + |value| <= a {
      SameMatch(mem, p, g, p, value);
    }
    if p >= a {
      SameMatch(mem, p, g, p + |span|, value);
    }
  }

  lemma HitGoesBack(mem: Bytes, n: nat, a: nat, span: Bytes, j: nat, p: nat)
    requires n <= |mem| && j < WORDS && 0 < a && a + 3 <= n && mem[a - 1] == SPACE && mem[a] == SLASH && SPACE !in span
    requires Hit(Grown(mem, a, span), n + |span|, Word(j), p)
    ensures if p < a then Hit(mem, n, Word(j), p) else p > |span| && Hit(mem, n, Word(j), p - |span|)
  {
    hide Matches;
    MatchGoesBack(mem, a, span, j, p);
    GrownAt(mem, a, span, p);
    if p < a {
      MatchShifts(mem, a, span, Word(j), p);
    } else {
      MatchShifts(mem, a, span, Word(j), p - |span|);
      GrownAt(mem, a, span, p - 1);
    }
  }

  /** Methods that were not found are not found after the rewrite either. */
  lemma StillNoWord(mem: Bytes, n: nat, a: nat, span: Bytes, j: nat)
    requires n <= |mem| && j < WORDS && 0 < a && a + 3 <= n && mem[a - 1] == SPACE && mem[a] == SLASH && SPACE !in span
    requires Find(mem, n, Word(j)).None?
    ensures Find(Grown(mem, a, span), n + |span|, Word(j)).None?
  {
    hide Find, Hit;
    var r := Find(Grown(mem, a, span), n + |span|, Word(j));
    if r.Some? {
      HitGoesBack(mem, n, a, span, j, r.value);
    }
  }

  /** The Host header comes after the method. */
  lemma HostIsBehind(mem: Bytes, n: nat, k: nat, h: nat)
    requires n <= |mem| && k < WORDS && OriginForm(mem, n, k) && Hit(mem, n, HOST, h)
    ensures h > |Word(k)|
  {
    hide Word, Matches, Lower;
    var a := |Word(k)|;
    if h <= a {
      if h + 4 >= a {
        MatchAt(mem, HOST, h, a - h);
        LowerKeeps(mem[a], HOST[a - h]);
      } else {
        MatchAt(mem, HOST, h, 4);
        LowerKeeps(HOST[4], mem[h + 4]);
        assert mem[h + 4] == mem[..a][h + 4] == Word(k)[h + 4];
        WordShape(k);
      }
    }
  }

  lemma FindGrownHost(mem: Bytes, n: nat, k: nat, span: Bytes, h: nat)
    requires n <= |mem| && k < WORDS && OriginForm(mem, n, k) && Hit(mem, n, HOST, h)
    ensures Find(Grown(mem, |Word(k)|, span), n + |span|, HOST).Some?
  {
    hide Find, Matches, Word;
    var a := |Word(k)|;
    HostIsBehind(mem, n, k, h);
    MatchShifts(mem, a, span, HOST, h);
    GrownAt(mem, a, span, h + |span|);
    GrownAt(mem, a, span, h + |span| - 1);
    assert Hit(Grown(mem, a, span), n + |span|, HOST, h + |span|);
  }

  lemma FindGrownWord(mem: Bytes, n: nat, k: nat, span: Bytes)
    requires n <= |mem| && k < WORDS && OriginForm(mem, n, k)
    ensures Find(Grown(mem, |Word(k)|, span), n + |span|, Word(k)) == Some(0)
  {
    hide Find, Matches;
    var a := |Word(k)|;
    var g := Grown(mem, a, span);
    WordShape(k);
    assert g[0..0 + a] == mem[..a];
    MatchIntro(g, Word(k), 0);
    assert g[0] == mem[..a][0] == Word(k)[0];
    assert Hit(g, n + |span|, Word(k), 0);
  }

  lemma AbsoluteIsGrown(mem: Bytes, n: nat, k: nat, h: nat)
    requires n <= |mem| && k < WORDS && OriginForm(mem, n, k)
    ensures var a, span, out := |Word(k)|, HTTP + Host(mem, h + |HOST|), Absolute(mem, n, k, h);
            && out + mem[n..] == Grown(mem, a, span) && |out| == n + |span|
            && HttpAt(Grown(mem, a, span), a)
  {
    hide Word, Host;
    var a, span := |Word(k)|, HTTP + Host(mem, h + |HOST|);
    assert mem[..n][..a] == mem[..a] && mem[..n][a..] + mem[n..] == mem[a..];
    assert Absolute(mem, n, k, h) + mem[n..] == mem[..a] + span + (mem[..n][a..] + mem[n..]);
    assert Grown(mem, a, span)[a..a + 5] == span[..5] == HTTP[..5];
  }

  /** Rewriting the rewritten request, with the same bytes behind it, finds it already patched. */
  lemma RewriteOnce(mem: Bytes, n: nat, k: nat, h: nat)
    requires n <= |mem| && k < WORDS && OriginForm(mem, n, k) && Find(mem, n, HOST) == Some(h) && h + |HOST| <= n
    requires NoEarlierWord(mem, n, k) && SPACE !in Host(mem, h + |HOST|)
    ensures var out := Absolute(mem, n, k, h);
            Patch(out + mem[n..], |out|) == AlreadyPatched
  {
    hide Find, FindWord, Host, Hit, Word, Absolute, Grown, HttpAt;
    var a, span := |Word(k)|, HTTP + Host(mem, h + |HOST|);
    AbsoluteIsGrown(mem, n, k, h);
    FindGrownHost(mem, n, k, span, h);
    WordShape(k);
    assert mem[a - 1] == mem[..a][a - 1];
    HostIsBehind(mem, n, k, h);
    forall j: nat | j < k ensures Find(Grown(mem, a, span), n + |span|, Word(j)).None? {
      StillNoWord(mem, n, a, span, j);
    }
    FindGrownWord(mem, n, k, span);
    FindWordAt(Grown(mem, a, span), n + |span|, 0, k);
  }

  // ---- Where the code falls short ----

  /** "POST /GET \rHost: a\r": GET is tried before POST, so the span goes behind the GET inside the target. */
  lemma EarlierWordMisplaces()
    ensures var mem: Bytes := [0x50, 0x4F, 0x53, 0x54, 0x20, 0x2F, 0x47, 0x45, 0x54, 0x20,
                               0x0D, 0x48, 0x6F, 0x73, 0x74, 0x3A, 0x20, 0x61, 0x0D];
            && OriginForm(mem, 19, 1) && Find(mem, 19, HOST) == Some(11)
            && Patch(mem, 19) != Patched(Absolute(mem, 19, 1, 11))
  {
    hide Find, Patch, Absolute;
    var mem: Bytes := [0x50, 0x4F, 0x53, 0x54, 0x20, 0x2F, 0x47, 0x45, 0x54, 0x20,
                       0x0D, 0x48, 0x6F, 0x73, 0x74, 0x3A, 0x20, 0x61, 0x0D];
    MatchIntro(mem, HOST, 11);
    assert Hit(mem, 19, HOST, 11);
    MatchIntro(mem, GET, 6);
    assert Hit(mem, 19, Word(0), 6);
    RewriteIsAbsolute(mem, 19, 1, 11);
  }

  /** "Host: a\rGET" with a space in memory behind it: the method runs over the end. */
  lemma WordRunsOver()
    ensures var mem: Bytes := [0x48, 0x6F, 0x73, 0x74, 0x3A, 0x20, 0x61, 0x0D, 0x47, 0x45, 0x54, 0x20];
            RunsOver(mem, 11)
  {
    var mem: Bytes := [0x48, 0x6F, 0x73, 0x74, 0x3A, 0x20, 0x61, 0x0D, 0x47, 0x45, 0x54, 0x20];
    MatchIntro(mem, HOST, 0);
    assert Hit(mem, 11, HOST, 0);
    MatchIntro(mem, GET, 8);
    assert ChosenWord(mem, 11, 0, 8);
  }

  /** It cannot happen to a request that ends in anything but a letter. */
  lemma EndsInNoLetter(mem: Bytes, n: nat)
    requires 0 < n <= |mem| && !(0x41 <= mem[n - 1] <= 0x5A) && !(0x61 <= mem[n - 1] <= 0x7A)
    ensures !RunsOver(mem, n)
  {
    hide HttpAt;
    forall k: nat, p: nat | ChosenWord(mem, n, k, p) ensures p + |Word(k)| <= n {
      if p + |Word(k)| > n {
        WordShape(k);
        MatchAt(mem, Word(k), p, n - 1 - p);
        LowerKeeps(mem[n - 1], Word(k)[n - 1 - p]);
      }
    }
  }

  // ---- Whose host is taken ----

  /** `g` starts a header line named Host, as `find_data` spells it: a capital H and one space after the colon. */
  predicate HostLine(mem: Bytes, n: nat, g: nat)
    requires n <= |mem|
  {
    && 2 <= g && g + |HOST| <= n && mem[g - 2] == CR && mem[g - 1] == LF
    && mem[g] == HOST[0] && Matches(mem, HOST, g)
  }

  /** The host is taken from a given Host line if and only if "Host: " does not already occur before it, as the end of
      another name or inside a target or value. */
  lemma HostOfLine(mem: Bytes, n: nat, g: nat)
    requires n <= |mem| && HostLine(mem, n, g)
    ensures Find(mem, n, HOST) == Some(g)
            <==> forall j: nat :: j < g ==> !(mem[j] == HOST[0] && Matches(mem, HOST, j))
  {
    hide Find, Matches;
    assert Hit(mem, n, HOST, g);
    forall j: nat | j < g ensures Hit(mem, n, HOST, j) <==> mem[j] == HOST[0] && Matches(mem, HOST, j) {
    }
    if Find(mem, n, HOST) == Some(g) {
      forall j: nat | j < g ensures !(mem[j] == HOST[0] && Matches(mem, HOST, j)) {
        assert !Hit(mem, n, HOST, j);
      }
    }
  }

  lemma HostAt(mem: Bytes, i: nat)
    requires i + 6 <= |mem| && mem[i] == 0x48 && mem[i + 1] == 0x6F && mem[i + 2] == 0x73
    requires mem[i + 3] == 0x74 && mem[i + 4] == COLON && mem[i + 5] == SPACE
    ensures Matches(mem, HOST, i)
  {
  }

  /** "X-Host: a\r\nHost: b\r": the host taken is that of the other header. */
  lemma OtherHeaderTaken()
    ensures var mem: Bytes := [0x58, 0x2D, 0x48, 0x6F, 0x73, 0x74, COLON, SPACE, 0x61, CR, LF,
                               0x48, 0x6F, 0x73, 0x74, COLON, SPACE, 0x62, CR];
            HostLine(mem, 19, 11) && Find(mem, 19, HOST) == Some(2) && Host(mem, 2 + |HOST|) == [0x61]
  {
    hide Find, Matches, HostLength;
    var mem: Bytes := [0x58, 0x2D, 0x48, 0x6F, 0x73, 0x74, COLON, SPACE, 0x61, CR, LF,
                       0x48, 0x6F, 0x73, 0x74, COLON, SPACE, 0x62, CR];
    HostAt(mem, 2);
    HostAt(mem, 11);
    assert Hit(mem, 19, HOST, 2);
    HostGrows(mem, 8, 0);
    HostEnds(mem, 8, 1);
    assert mem[8..9] == [0x61];
  }

  /** A header whose name starts in lower case is never taken. */
  lemma LowerCaseHostMissed(mem: Bytes, n: nat, h: nat)
    requires n <= |mem| && Find(mem, n, HOST) == Some(h) && h + |HOST| <= n
    ensures mem[h] == HOST[0]
  {
    hide Find;
    assert Hit(mem, n, HOST, h);
  }
}
