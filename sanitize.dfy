/**
 * The form server's HTML escaper `sanitize`: five `replaceAll` calls, `&`
 * first, so every entity the later calls insert keeps its own `&`.  The
 * proofs go through `EscapedTo(s, k)`, the string with only the first `k`
 * special characters replaced by their entities.
 */
module Sanitizer {
  import opened JsValue

  /** The characters `sanitize` replaces, in the order of its calls. */
  const SPECIALS: seq<char> := ['&', '<', '>', '"', '\'']
  /** The entity each of them becomes. */
  const ENTITIES: seq<string> := ["&amp;", "&lt;", "&gt;", "&quot;", "&#39;"]

  /**
   * `s.replaceAll(pat, rep)` for a non-empty string pattern: occurrences are
   * found left to right, and scanning resumes after each replaced one.
   */
  function ReplaceAll(s: string, pat: string, rep: string): string
    requires pat != []
    decreases |s|
  {
    if s == [] then []
    else if pat <= s then rep + ReplaceAll(s[|pat|..], pat, rep)
    else [s[0]] + ReplaceAll(s[1..], pat, rep)
  }

  /** `sanitize(str)` on a string. */
  function Sanitize(s: string): string {
    var a := ReplaceAll(s, "&", "&amp;");
    var b := ReplaceAll(a, "<", "&lt;");
    var c := ReplaceAll(b, ">", "&gt;");
    var d := ReplaceAll(c, "\"", "&quot;");
    ReplaceAll(d, "'", "&#39;")
  }

  /** `sanitize(v)` on any value: strings are escaped, everything else is returned as it is. */
  function SanitizeValue(v: Value): (r: Value)
    ensures !v.Str? ==> r == v
    ensures v.Str? ==> r == Str(Sanitize(v.s))
  {
    if v.Str? then Str(Sanitize(v.s)) else v
  }

  /** Undoes the entities in the reverse order of `sanitize`, `&amp;` last. */
  function Unescape(s: string): string {
    var a := ReplaceAll(s, "&#39;", "'");
    var b := ReplaceAll(a, "&quot;", "\"");
    var c := ReplaceAll(b, "&gt;", ">");
    var d := ReplaceAll(c, "&lt;", "<");
    ReplaceAll(d, "&amp;", "&")
  }

  /** The position of `c` in `SPECIALS`, or 5 when it is not special. */
  function SpecialIndex(c: char): (i: nat)
    ensures i <= 5
    ensures i < 5 ==> SPECIALS[i] == c
    ensures i == 5 ==> c !in SPECIALS
  {
    if c == '&' then 0
    else if c == '<' then 1
    else if c == '>' then 2
    else if c == '"' then 3
    else if c == '\'' then 4
    else 5
  }

  /** `c` with the first `k` specials escaped. */
  function EscapeChar(c: char, k: nat): string
    requires k <= 5
  {
    var i := SpecialIndex(c);
    if i < k then ENTITIES[i] else [c]
  }

  /** `s` with the first `k` specials escaped, character by character. */
  function EscapedTo(s: string, k: nat): string
    requires k <= 5
  {
    if s == [] then [] else EscapeChar(s[0], k) + EscapedTo(s[1..], k)
  }

  /**
   * The shape of the entities: each starts with `&`, has no other `&` and no
   * special character, and any two differ in their second character.
   */
  lemma EntityShape(i: nat)
    requires i < 5
    ensures |ENTITIES[i]| >= 2 && ENTITIES[i][0] == '&'
    ensures forall j :: 1 <= j < |ENTITIES[i]| ==> ENTITIES[i][j] !in SPECIALS
    ensures forall i' :: 0 <= i' < 5 && i' != i ==> ENTITIES[i][1] != ENTITIES[i'][1]
  {
    assert ENTITIES[0] == ['&', 'a', 'm', 'p', ';'];
    assert ENTITIES[1] == ['&', 'l', 't', ';'];
    assert ENTITIES[2] == ['&', 'g', 't', ';'];
    assert ENTITIES[3] == ['&', 'q', 'u', 'o', 't', ';'];
    assert ENTITIES[4] == ['&', '#', '3', '9', ';'];
  }

  /** Text without the pattern's first character passes through `ReplaceAll` unchanged. */
  lemma {:induction false} ReplacePlain(x: string, y: string, pat: string, rep: string)
    requires pat != []
    requires forall j :: 0 <= j < |x| ==> x[j] != pat[0]
    ensures ReplaceAll(x + y, pat, rep) == x + ReplaceAll(y, pat, rep)
    decreases |x|
  {
    if x != [] {
      assert (x + y)[0] == x[0];
      assert (x + y)[1..] == x[1..] + y;
      ReplacePlain(x[1..], y, pat, rep);
    } else {
      assert x + y == y;
    }
  }

  /** An occurrence at the front is replaced. */
  lemma ReplaceMatch(y: string, pat: string, rep: string)
    requires pat != []
    ensures ReplaceAll(pat + y, pat, rep) == rep + ReplaceAll(y, pat, rep)
  {
    assert (pat + y)[|pat|..] == y;
  }

  /**
   * A chunk that starts like the pattern but differs from it in its second
   * character, with no further copy of the pattern's first character, passes
   * through unchanged.
   */
  lemma ReplaceNearMiss(x: string, y: string, pat: string, rep: string)
    requires |pat| >= 2 && |x| >= 2 && x[1] != pat[1]
    requires forall j :: 1 <= j < |x| ==> x[j] != pat[0]
    ensures ReplaceAll(x + y, pat, rep) == x + ReplaceAll(y, pat, rep)
  {
    assert (x + y)[1] == x[1];
    assert !(pat <= x + y);
    assert (x + y)[1..] == x[1..] + y;
    ReplacePlain(x[1..], y, pat, rep);
    assert x == [x[0]] + x[1..];
  }

  lemma EscapedToZero(s: string)
    ensures EscapedTo(s, 0) == s
  {
    if s != [] {
      EscapedToZero(s[1..]);
    }
  }

  /** Call `k` of `sanitize` turns `EscapedTo(s, k - 1)` into `EscapedTo(s, k)`. */
  lemma {:induction false} EscapeStage(s: string, k: nat)
    requires 1 <= k <= 5
    ensures ReplaceAll(EscapedTo(s, k - 1), [SPECIALS[k - 1]], ENTITIES[k - 1]) == EscapedTo(s, k)
  {
    var pat, rep := [SPECIALS[k - 1]], ENTITIES[k - 1];
    if s != [] {
      var c, rest := s[0], EscapedTo(s[1..], k - 1);
      var i := SpecialIndex(c);
      EscapeStage(s[1..], k);
      if i == k - 1 {
        assert EscapeChar(c, k - 1) == pat;
        ReplaceMatch(rest, pat, rep);
      } else if i < k - 1 {
        EntityShape(i);
        ReplacePlain(ENTITIES[i], rest, pat, rep);
      } else {
        ReplacePlain([c], rest, pat, rep);
      }
    }
  }

  /** Call `k` of `Unescape` (counting from its end) turns `EscapedTo(s, k)` back into `EscapedTo(s, k - 1)`. */
  lemma {:induction false} UnescapeStage(s: string, k: nat)
    requires 1 <= k <= 5
    ensures ReplaceAll(EscapedTo(s, k), ENTITIES[k - 1], [SPECIALS[k - 1]]) == EscapedTo(s, k - 1)
  {
    var pat, rep := ENTITIES[k - 1], [SPECIALS[k - 1]];
    EntityShape(k - 1);
    if s != [] {
      var c, rest := s[0], EscapedTo(s[1..], k);
      var i := SpecialIndex(c);
      UnescapeStage(s[1..], k);
      if i == k - 1 {
        ReplaceMatch(rest, pat, rep);
      } else if i < k - 1 {
        EntityShape(i);
        ReplaceNearMiss(ENTITIES[i], rest, pat, rep);
      } else {
        ReplacePlain([c], rest, pat, rep);
      }
    }
  }

  /** `sanitize` escapes each special character on its own, whatever surrounds it. */
  lemma SanitizeEscapes(s: string)
    ensures Sanitize(s) == EscapedTo(s, 5)
  {
    EscapedToZero(s);
    EscapeStage(s, 1);
    EscapeStage(s, 2);
    EscapeStage(s, 3);
    EscapeStage(s, 4);
    EscapeStage(s, 5);
  }

  /** Undoing the entities in reverse order, `&amp;` last, recovers the original string. */
  lemma UnescapeSanitize(s: string)
    ensures Unescape(Sanitize(s)) == s
  {
    SanitizeEscapes(s);
    UnescapeStage(s, 5);
    UnescapeStage(s, 4);
    UnescapeStage(s, 3);
    UnescapeStage(s, 2);
    UnescapeStage(s, 1);
    EscapedToZero(s);
  }

  /** No raw `<`, `>`, `"` or `'`. */
  predicate NoRawMarkup(s: string) {
    forall j :: 0 <= j < |s| ==> s[j] !in SPECIALS[1..]
  }

  /** Every `&` starts one of the five entities. */
  predicate AmpersandsStartEntities(s: string) {
    forall j :: 0 <= j < |s| && s[j] == '&' ==> exists i :: 0 <= i < 5 && ENTITIES[i] <= s[j..]
  }

  lemma {:induction false} EscapedNoRaw(s: string)
    ensures NoRawMarkup(EscapedTo(s, 5))
  {
    if s != [] {
      var chunk, rest := EscapeChar(s[0], 5), EscapedTo(s[1..], 5);
      EscapedNoRaw(s[1..]);
      var i := SpecialIndex(s[0]);
      if i < 5 {
        EntityShape(i);
        assert forall j :: 0 <= j < |chunk| ==> chunk[j] == '&' || chunk[j] !in SPECIALS;
      }
      assert NoRawMarkup(chunk);
      var r := chunk + rest;
      forall j | 0 <= j < |r| ensures r[j] !in SPECIALS[1..] {
        if j >= |chunk| { assert r[j] == rest[j - |chunk|]; }
      }
    }
  }

  lemma {:induction false} EscapedAmpersands(s: string)
    ensures AmpersandsStartEntities(EscapedTo(s, 5))
  {
    if s != [] {
      var chunk, rest := EscapeChar(s[0], 5), EscapedTo(s[1..], 5);
      EscapedAmpersands(s[1..]);
      var r := chunk + rest;
      var i := SpecialIndex(s[0]);
      if i < 5 {
        EntityShape(i);
      }
      forall j | 0 <= j < |r| && r[j] == '&' ensures exists i' :: 0 <= i' < 5 && ENTITIES[i'] <= r[j..] {
        if j < |chunk| {
          assert j == 0 && i < 5;
          assert ENTITIES[i] <= r[j..];
        } else {
          assert r[j..] == rest[j - |chunk|..];
          assert rest[j - |chunk|] == '&';
        }
      }
    }
  }

  /**
   * A sanitised string holds no raw `<`, `>`, `"` or `'`, and every `&` in it
   * starts `&amp;`, `&lt;`, `&gt;`, `&quot;` or `&#39;`.
   */
  lemma SanitizedShape(s: string)
    ensures NoRawMarkup(Sanitize(s)) && AmpersandsStartEntities(Sanitize(s))
  {
    SanitizeEscapes(s);
    EscapedNoRaw(s);
    EscapedAmpersands(s);
  }

  lemma {:induction false} EscapedLength(s: string)
    ensures |EscapedTo(s, 5)| >= |s|
    ensures |EscapedTo(s, 5)| == |s| <==> forall j :: 0 <= j < |s| ==> s[j] !in SPECIALS
    ensures (forall j :: 0 <= j < |s| ==> s[j] !in SPECIALS) ==> EscapedTo(s, 5) == s
  {
    if s != [] {
      EscapedLength(s[1..]);
      var i := SpecialIndex(s[0]);
      if i < 5 {
        EntityShape(i);
      }
      assert forall j :: 1 <= j < |s| ==> s[j] == s[1..][j - 1];
      if forall j :: 0 <= j < |s| ==> s[j] !in SPECIALS {
        assert forall j :: 0 <= j < |s| - 1 ==> s[1..][j] == s[j + 1];
        assert s == [s[0]] + s[1..];
      }
    }
  }

  /**
   * `sanitize` leaves a string unchanged exactly when it holds none of the
   * five special characters.
   */
  lemma SanitizeFixesPlain(s: string)
    ensures Sanitize(s) == s <==> forall j :: 0 <= j < |s| ==> s[j] !in SPECIALS
  {
    SanitizeEscapes(s);
    EscapedLength(s);
  }

  /** A special character leaves an `&` in the escaped string. */
  lemma {:induction false} AmpersandInEscaped(t: string, j: nat)
    requires j < |t| && t[j] in SPECIALS
    ensures exists k :: 0 <= k < |EscapedTo(t, 5)| && EscapedTo(t, 5)[k] == '&'
  {
    var chunk := EscapeChar(t[0], 5);
    var rest := EscapedTo(t[1..], 5);
    if j == 0 {
      EntityShape(SpecialIndex(t[0]));
      assert EscapedTo(t, 5)[0] == '&';
    } else {
      AmpersandInEscaped(t[1..], j - 1);
      var k :| 0 <= k < |rest| && rest[k] == '&';
      assert EscapedTo(t, 5)[|chunk| + k] == '&';
    }
  }

  /** A sanitised string without `&` is its own input. */
  lemma SanitizeWithoutAmpersand(t: string)
    requires forall k :: 0 <= k < |Sanitize(t)| ==> Sanitize(t)[k] != '&'
    ensures Sanitize(t) == t
  {
    SanitizeEscapes(t);
    if exists j :: 0 <= j < |t| && t[j] in SPECIALS {
      var j :| 0 <= j < |t| && t[j] in SPECIALS;
      AmpersandInEscaped(t, j);
      assert false;
    }
    SanitizeFixesPlain(t);
  }
}
