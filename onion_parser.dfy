/**
 * Extraction of hidden-service links from page text: the pattern
 * `https?://[a-z2-7]{56}\.onion` compiled with `re.IGNORECASE`, scanned
 * left to right with non-overlapping matches as `findall` does.
 */
module OnionParser {
  import opened SeqUtil

  /** Length of the base32 host name of a version-3 onion address. */
  const HOST_LEN: nat := 56

  /**
   * Character `c` matches the pattern's lower-case literal `l` under
   * `re.IGNORECASE`: itself, its ASCII upper case, and the non-ASCII
   * letters that Python's case-insensitive matching folds onto `s`, `i`, `k`.
   */
  predicate FoldsTo(c: char, l: char) {
    || c == l
    || ('a' <= l <= 'z' && c as int == l as int - 32)
    || (l == 's' && c == '\U{17F}')
    || (l == 'i' && (c == '\U{130}' || c == '\U{131}'))
    || (l == 'k' && c == '\U{212A}')
  }

  /** Character `c` matches the class `[a-z2-7]` under `re.IGNORECASE`. */
  predicate InHostClass(c: char) {
    || ('a' <= c <= 'z')
    || ('A' <= c <= 'Z')
    || ('2' <= c <= '7')
    || c == '\U{130}' || c == '\U{131}' || c == '\U{17F}' || c == '\U{212A}'
  }

  /** The literal `lit` matches `s` at position `i`. */
  predicate LiteralAt(s: string, i: nat, lit: string) {
    i + |lit| <= |s| && forall k :: 0 <= k < |lit| ==> FoldsTo(s[i + k], lit[k])
  }

  /** `HOST_LEN` host characters start at position `i`. */
  predicate HostAt(s: string, i: nat) {
    i + HOST_LEN <= |s| && forall k :: i <= k < i + HOST_LEN ==> InHostClass(s[k])
  }

  /** The shape of every string the pattern matches. */
  predicate IsOnionUrl(x: string) {
    || (|x| == 69 && LiteralAt(x, 0, "http://") && HostAt(x, 7) && LiteralAt(x, 63, ".onion"))
    || (|x| == 70 && LiteralAt(x, 0, "https://") && HostAt(x, 8) && LiteralAt(x, 64, ".onion"))
  }

  /** `x` occurs in `s` as a contiguous substring. */
  ghost predicate OccursIn(x: string, s: string) {
    exists k :: OccursAt(x, s, k)
  }

  /** `x` occurs in `s` starting at position `k`. */
  predicate OccursAt(x: string, s: string, k: int) {
    0 <= k <= |s| - |x| && s[k..k + |x|] == x
  }

  /** `://`, the host and `.onion` start at position `j`. */
  predicate TailAt(s: string, j: nat) {
    LiteralAt(s, j, "://") && HostAt(s, j + 3) && LiteralAt(s, j + 3 + HOST_LEN, ".onion")
  }

  lemma LiteralSlice(s: string, i: nat, n: nat, j: nat, lit: string)
    requires i + n <= |s| && j + |lit| <= n
    ensures LiteralAt(s, i + j, lit) <==> LiteralAt(s[i..i + n], j, lit)
  {
    var t := s[i..i + n];
    assert forall m :: j <= m < j + |lit| ==> t[m] == s[i + m];
  }

  lemma LiteralConcat(s: string, i: nat, a: string, b: string)
    requires LiteralAt(s, i, a) && LiteralAt(s, i + |a|, b)
    ensures LiteralAt(s, i, a + b)
  {
    var ab := a + b;
    forall k | 0 <= k < |ab| ensures FoldsTo(s[i + k], ab[k]) {
      if k >= |a| {
        var m := k - |a|;
        assert FoldsTo(s[i + |a| + m], b[m]);
      }
    }
  }

  lemma HostSlice(s: string, i: nat, n: nat, j: nat)
    requires i + n <= |s| && j + HOST_LEN <= n
    ensures HostAt(s, i + j) <==> HostAt(s[i..i + n], j)
  {
    var t := s[i..i + n];
    assert forall k :: j <= k < j + HOST_LEN ==> t[k] == s[i + k];
  }

  /**
   * Length of the match of the pattern at position `i`, or 0.  The
   * optional `s` is tried first (greedy) and, if the rest fails, without it.
   */
  function MatchLen(s: string, i: nat): (n: nat)
    ensures n == 0 || n == 69 || n == 70
    ensures n > 0 ==> i + n <= |s| && IsOnionUrl(s[i..i + n])
  {
    if !LiteralAt(s, i, "http") then 0
    else if i + 4 < |s| && FoldsTo(s[i + 4], 's') && TailAt(s, i + 5) then
      SecureMatchShape(s, i);
      70
    else if TailAt(s, i + 4) then
      PlainMatchShape(s, i);
      69
    else 0
  }

  /** `https://`, a host and `.onion` at `i` form an onion URL of length 70. */
  lemma SecureMatchShape(s: string, i: nat)
    requires LiteralAt(s, i, "http") && i + 4 < |s| && FoldsTo(s[i + 4], 's') && TailAt(s, i + 5)
    ensures i + 70 <= |s| && IsOnionUrl(s[i..i + 70])
  {
    assert LiteralAt(s, i, "https://") by {
      assert LiteralAt(s, i + 4, "s");
      LiteralConcat(s, i, "http", "s");
      LiteralConcat(s, i, "https", "://");
      assert "https" + "://" == "https://";
    }
    LiteralSlice(s, i, 70, 0, "https://");
    HostSlice(s, i, 70, 8);
    LiteralSlice(s, i, 70, 64, ".onion");
  }

  /** `http://`, a host and `.onion` at `i` form an onion URL of length 69. */
  lemma PlainMatchShape(s: string, i: nat)
    requires LiteralAt(s, i, "http") && TailAt(s, i + 4)
    ensures i + 69 <= |s| && IsOnionUrl(s[i..i + 69])
  {
    assert LiteralAt(s, i, "http://") by {
      LiteralConcat(s, i, "http", "://");
      assert "http" + "://" == "http://";
    }
    LiteralSlice(s, i, 69, 0, "http://");
    HostSlice(s, i, 69, 7);
    LiteralSlice(s, i, 69, 63, ".onion");
  }

  /** `ONION_RE.findall(s[i..])`, with positions counted in `s`. */
  function FindAll(s: string, i: nat): (r: seq<string>)
    requires i <= |s|
    ensures forall x :: x in r ==> IsOnionUrl(x) && OccursIn(x, s)
    decreases |s| - i
  {
    if i == |s| then []
    else
      var n := MatchLen(s, i);
      if n > 0 then
        var x := s[i..i + n];
        assert OccursAt(x, s, i);
        [x] + FindAll(s, i + n)
      else FindAll(s, i + 1)
  }

  /** `extract_onion_links(html)`; `None` stands for Python's `None`. */
  function ExtractOnionLinks(html: Option<string>): (r: seq<string>)
    ensures html == None || html == Some("") ==> r == []
    ensures html.Some? ==> forall x :: x in r <==> x in FindAll(html.value, 0)
    ensures NoDups(r)
    ensures forall x :: x in r ==> IsOnionUrl(x) && (|x| == 69 || |x| == 70)
    ensures forall x :: x in r ==> html.Some? && OccursIn(x, html.value)
  {
    match html
    case None => []
    case Some(text) => if text == "" then [] else Dedup(FindAll(text, 0))
  }

  /** Every onion URL written in the text is a match of the pattern at its position. */
  lemma OnionUrlIsMatch(s: string, x: string, j: nat)
    requires IsOnionUrl(x) && OccursAt(x, s, j)
    ensures MatchLen(s, j) == |x|
  {
    var n := |x|;
    assert s[j..j + n] == x;
    LiteralSlice(s, j, n, 0, "http");
    assert LiteralAt(x, 0, "http") by {
      assert forall k :: 0 <= k < 4 ==> "http"[k] == "https://"[k] && "http"[k] == "http://"[k];
    }
    if n == 70 {
      LiteralSlice(s, j, n, 0, "https://");
      HostSlice(s, j, n, 8);
      LiteralSlice(s, j, n, 64, ".onion");
      LiteralSlice(s, j, n, 5, "://");
      assert LiteralAt(x, 5, "://") by {
        assert forall k :: 0 <= k < 3 ==> x[5 + k] == x[0 + (k + 5)] && "://"[k] == "https://"[k + 5];
      }
      assert FoldsTo(s[j + 4], "https://"[4]);
    } else {
      LiteralSlice(s, j, n, 0, "http://");
      HostSlice(s, j, n, 7);
      LiteralSlice(s, j, n, 63, ".onion");
      LiteralSlice(s, j, n, 4, "://");
      assert LiteralAt(x, 4, "://") by {
        assert forall k :: 0 <= k < 3 ==> x[4 + k] == x[0 + (k + 4)] && "://"[k] == "http://"[k + 4];
      }
      assert FoldsTo(s[j + 4], "http://"[4]);
    }
  }

  /** Facts about the characters inside a match that rule out a second match inside it. */
  lemma MatchChars(s: string, i: nat)
    requires MatchLen(s, i) > 0
    ensures forall p :: i + 1 <= p < i + 5 ==> !FoldsTo(s[p], 'h')
    ensures forall p :: i + 6 <= p < i + MatchLen(s, i) ==> s[p] != ':'
    ensures forall p :: i + MatchLen(s, i) - 5 <= p < i + MatchLen(s, i) ==> !FoldsTo(s[p], 'h')
  {
    var n := MatchLen(s, i);
    var e := i + n - 6;
    assert LiteralAt(s, e, ".onion");
    forall p | e + 1 <= p < e + 6 ensures !FoldsTo(s[p], 'h') && s[p] != ':' {
      var k := p - e;
      assert FoldsTo(s[e + k], ".onion"[k]);
      assert k == 1 || k == 2 || k == 3 || k == 4 || k == 5;
    }
    assert s[e] != ':' by { assert FoldsTo(s[e + 0], ".onion"[0]); }
    var h := e - HOST_LEN;
    assert HostAt(s, h);
    assert LiteralAt(s, i, "http");
    forall p | i + 1 <= p < i + 4 ensures !FoldsTo(s[p], 'h') {
      var k := p - i;
      assert FoldsTo(s[i + k], "http"[k]);
      assert k == 1 || k == 2 || k == 3;
    }
    if n == 70 {
      assert LiteralAt(s, i + 5, "://");
      assert FoldsTo(s[i + 4], 's');
      assert FoldsTo(s[i + 5 + 1], "://"[1]) && FoldsTo(s[i + 5 + 2], "://"[2]);
    } else {
      assert LiteralAt(s, i + 4, "://");
      assert FoldsTo(s[i + 4 + 0], "://"[0]);
      assert FoldsTo(s[i + 4 + 2], "://"[2]);
    }
  }

  /** A match begins with `h` and has its colon at offset 4 or 5. */
  lemma MatchStart(s: string, j: nat)
    requires MatchLen(s, j) > 0
    ensures FoldsTo(s[j], 'h')
    ensures s[j + 4] == ':' || s[j + 5] == ':'
  {
    assert FoldsTo(s[j + 0], "http"[0]);
    if FoldsTo(s[j + 4], 's') && TailAt(s, j + 5) {
      assert FoldsTo(s[j + 5 + 0], "://"[0]);
    } else {
      assert FoldsTo(s[j + 4 + 0], "://"[0]);
    }
  }

  /** Matches found by `findall` never overlap: no match starts inside another. */
  lemma NoMatchInsideMatch(s: string, i: nat, j: nat)
    requires MatchLen(s, i) > 0 && i < j < i + MatchLen(s, i)
    ensures MatchLen(s, j) == 0
  {
    var n := MatchLen(s, i);
    if MatchLen(s, j) > 0 {
      MatchChars(s, i);
      MatchStart(s, j);
      assert false;
    }
  }

  /** Scanning from `i` reaches every match at or after `i`. */
  lemma {:induction false} FindAllComplete(s: string, i: nat, j: nat)
    requires i <= j < |s| && MatchLen(s, j) > 0
    ensures s[j..j + MatchLen(s, j)] in FindAll(s, i)
    decreases j - i
  {
    if i < j {
      var n := MatchLen(s, i);
      if n > 0 {
        if j < i + n { NoMatchInsideMatch(s, i, j); }
        if i + n < j + 1 && i + n <= j { FindAllComplete(s, i + n, j); }
      } else {
        FindAllComplete(s, i + 1, j);
      }
    }
  }

  /**
   * The links extracted from a non-empty text are exactly the onion URLs
   * written in it.
   */
  lemma ExtractExactlyTheOnionUrls(text: string, x: string)
    requires text != ""
    ensures x in ExtractOnionLinks(Some(text)) <==> IsOnionUrl(x) && OccursIn(x, text)
  {
    if IsOnionUrl(x) && OccursIn(x, text) {
      var j :| OccursAt(x, text, j);
      OnionUrlIsMatch(text, x, j);
      FindAllComplete(text, 0, j);
    }
  }
}
