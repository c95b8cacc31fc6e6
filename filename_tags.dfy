/**
 * The tempo and key-signature tags that the server reads from an uploaded file's
 * original name (backend/server.js:169-170, and the stored value at line 188):
 *
 *   BPM:  /\b(\d+)\s*BPM\b/i           the digits of the leftmost match
 *   key:  /\b([A-G]#?\s*(?:maj|min))\b/i  the leftmost match, as written in the name
 *
 * Each regular expression is given twice: as a declarative predicate saying which
 * positions make the whole pattern match (`BpmMatch`, `KeyMatch`), and as the greedy
 * left-to-right scan that JavaScript's `String.prototype.match` performs (`BpmAt`,
 * `KeyAt`, `FindBpm`, `FindKey`). The lemmas connect the two.
 */
module FilenameTags {
  import opened Wrappers
  import opened JsStrings

  /** Where a match starts, and where its capture ends. */
  datatype Hit = Hit(start: nat, end: nat)

  /**
   * `String.prototype.match` without the `g` flag tries the pattern at each position in
   * turn; `attempts[k]` is the outcome of the attempt at `k`. The scan from `i` on stops
   * at the first attempt that succeeds.
   */
  function FirstHit(attempts: seq<Option<nat>>, i: nat): (r: Option<Hit>)
    requires i <= |attempts|
    ensures r.Some? ==> i <= r.value.start < |attempts| && attempts[r.value.start] == Some(r.value.end)
    decreases |attempts| - i
  {
    if i == |attempts| then None
    else
      match attempts[i]
      case Some(e) => Some(Hit(i, e))
      case None => FirstHit(attempts, i + 1)
  }

  /** The scan finds nothing exactly when every attempt from `i` on fails. */
  lemma {:induction false} FirstHitNone(attempts: seq<Option<nat>>, i: nat)
    requires i <= |attempts|
    ensures FirstHit(attempts, i).None? <==> forall k | i <= k < |attempts| :: attempts[k].None?
    decreases |attempts| - i
  {
    if i < |attempts| && attempts[i].None? {
      FirstHitNone(attempts, i + 1);
    }
  }

  /** Where the scan stops, every earlier attempt has failed. */
  lemma {:induction false} FirstHitLeftmost(attempts: seq<Option<nat>>, i: nat)
    requires i <= |attempts| && FirstHit(attempts, i).Some?
    ensures forall k | i <= k < FirstHit(attempts, i).value.start :: attempts[k].None?
    decreases |attempts| - i
  {
    if attempts[i].None? {
      FirstHitLeftmost(attempts, i + 1);
    }
  }

  /** The scan stops at the first attempt that succeeds. */
  lemma {:induction false} FirstHitStops(attempts: seq<Option<nat>>, i: nat, p: nat)
    requires i <= p < |attempts| && attempts[p].Some?
    requires forall k | i <= k < p :: attempts[k].None?
    ensures FirstHit(attempts, i) == Some(Hit(p, attempts[p].value))
    decreases p - i
  {
    if i < p {
      FirstHitStops(attempts, i + 1, p);
    }
  }

  /** `\w`: ASCII letters, digits and the underscore. */
  predicate IsWordChar(c: char) {
    'a' <= c <= 'z' || 'A' <= c <= 'Z' || IsDigit(c) || c == '_'
  }

  /** `\s`: the ECMAScript WhiteSpace and LineTerminator characters. */
  predicate IsSpace(c: char) {
    c == '\t' || c == '\n' || c == '\U{B}' || c == '\U{C}' || c == '\r' || c == ' '
    || c == '\U{A0}' || c == '\U{1680}' || ('\U{2000}' <= c <= '\U{200A}')
    || c == '\U{2028}' || c == '\U{2029}' || c == '\U{202F}' || c == '\U{205F}'
    || c == '\U{3000}' || c == '\U{FEFF}'
  }

  /** `\b` at position `p`: a word character on exactly one side. */
  predicate Boundary(s: string, p: int)
    requires 0 <= p <= |s|
  {
    (p > 0 && IsWordChar(s[p - 1])) != (p < |s| && IsWordChar(s[p]))
  }

  /** The end of the longest run, starting at `i`, of characters satisfying `P`. */
  function RunEnd(s: string, i: nat, P: char -> bool): (j: nat)
    requires i <= |s|
    ensures i <= j <= |s|
    ensures forall k :: i <= k < j ==> P(s[k])
    ensures j == |s| || !P(s[j])
    decreases |s| - i
  {
    if i == |s| || !P(s[i]) then i else RunEnd(s, i + 1, P)
  }

  /** The three characters at `w` spell `word` in any letter case (the `i` flag). */
  predicate WordAt(s: string, w: nat, word: string)
    requires |word| == 3
  {
    w + 3 <= |s| && Lower(s[w..w + 3]) == word
  }

  // ---------------------------------------------------------------- BPM

  /**
   * The pattern `\b(\d+)\s*BPM\b` matches from `p`, with the digits in `[p, q)`,
   * white space in `[q, w)` and "BPM" at `w`.
   */
  ghost predicate BpmMatch(s: string, p: int, q: int, w: int) {
    && 0 <= p < q <= w && w + 3 <= |s|
    && Boundary(s, p)
    && (forall k :: p <= k < q ==> IsDigit(s[k]))
    && (forall k :: q <= k < w ==> IsSpace(s[k]))
    && WordAt(s, w, "bpm")
    && Boundary(s, w + 3)
  }

  /** The greedy attempt at position `p`: the end of the captured digits, if the pattern matches there. */
  function BpmAt(s: string, p: nat): (r: Option<nat>)
    requires p <= |s|
    ensures r.Some? ==> p < r.value <= |s| && AllDigits(s[p..r.value])
  {
    if !(p < |s| && IsDigit(s[p]) && Boundary(s, p)) then None
    else
      var q := RunEnd(s, p, IsDigit);
      var w := RunEnd(s, q, IsSpace);
      if WordAt(s, w, "bpm") && Boundary(s, w + 3) then
        assert forall k :: 0 <= k < q - p ==> s[p..q][k] == s[p + k];
        Some(q)
      else None
  }

  /** The greedy attempt finds a match exactly when the pattern has one at `p`. */
  lemma BpmAtSound(s: string, p: nat)
    requires p <= |s| && BpmAt(s, p).Some?
    ensures exists w :: BpmMatch(s, p, BpmAt(s, p).value, w)
  {
    var q := RunEnd(s, p, IsDigit);
    var w := RunEnd(s, q, IsSpace);
    assert BpmMatch(s, p, q, w);
  }

  lemma BpmAtComplete(s: string, p: nat, q: int, w: int)
    requires p <= |s| && BpmMatch(s, p, q, w)
    ensures BpmAt(s, p) == Some(q)
  {
    // the character that ends the digits is white space or the 'B' of "BPM"
    assert Lower(s[w..w + 3])[0] == LowerChar(s[w]);
    assert !IsDigit(s[q]);
    var q' := RunEnd(s, p, IsDigit);
    assert q' == q;
    // the character that ends the white space is the 'B' of "BPM"
    assert !IsSpace(s[w]);
    var w' := RunEnd(s, q', IsSpace);
    assert w' == w;
  }

  /** The attempt of the BPM pattern at every position of `s`, the end included. */
  function BpmAttempts(s: string): (a: seq<Option<nat>>)
    ensures |a| == |s| + 1 && forall k | 0 <= k <= |s| :: a[k] == BpmAt(s, k)
  {
    seq(|s| + 1, k requires 0 <= k <= |s| => BpmAt(s, k))
  }

  /** `name.match(/\b(\d+)\s*BPM\b/i)?.[1]`: the digits before the leftmost "BPM". */
  function FindBpm(s: string): (r: Option<string>)
    ensures r.Some? ==> r.value != "" && AllDigits(r.value)
  {
    match FirstHit(BpmAttempts(s), 0)
    case Some(Hit(p, q)) => Some(s[p..q])
    case None => None
  }

  /**
   * What `FindBpm` returns is the capture of the leftmost match of the pattern, and it
   * returns nothing exactly when the pattern matches nowhere.
   */
  lemma FindBpmIsLeftmostMatch(s: string)
    ensures FindBpm(s).Some? ==>
      exists p, q, w :: BpmMatch(s, p, q, w) && FindBpm(s).value == s[p..q] &&
        forall p', q', w' :: BpmMatch(s, p', q', w') ==> p <= p'
    ensures FindBpm(s).None? <==> forall p, q, w :: !BpmMatch(s, p, q, w)
  {
    var attempts := BpmAttempts(s);
    match FirstHit(attempts, 0)
    case Some(Hit(p, q)) =>
      FirstHitLeftmost(attempts, 0);
      BpmAtSound(s, p);
      var w :| BpmMatch(s, p, q, w);
      forall p', q', w' | BpmMatch(s, p', q', w') ensures p <= p' {
        BpmAtComplete(s, p', q', w');
      }
    case None =>
      FirstHitNone(attempts, 0);
      forall p, q, w | BpmMatch(s, p, q, w) ensures false {
        BpmAtComplete(s, p, q, w);
      }
  }

  /** The value stored in the `bpm` column. */
  datatype BpmValue =
    | ParsedTag(text: string)   // parseFloat of the embedded TBPM tag text (floating point, not modelled)
    | WholeNumber(value: nat)   // parseFloat of the digits taken from the file name

  /**
   * `bpm ? parseFloat(bpm) : null`, where `bpm` is the embedded tag when it is a
   * non-empty string and otherwise the digits captured from the original name.
   */
  function StoredBpm(originalName: string, tagBpm: Option<string>): (r: Option<BpmValue>)
    ensures tagBpm.Some? && tagBpm.value != "" ==> r == Some(ParsedTag(tagBpm.value))
    ensures !(tagBpm.Some? && tagBpm.value != "") ==>
      (r.None? <==> FindBpm(originalName).None?)
    ensures !(tagBpm.Some? && tagBpm.value != "") && r.Some? ==>
      r.value.WholeNumber? && r.value.value == DecimalValue(FindBpm(originalName).value)
  {
    if tagBpm.Some? && tagBpm.value != "" then Some(ParsedTag(tagBpm.value))
    else
      match FindBpm(originalName)
      case Some(digits) => Some(WholeNumber(DecimalValue(digits)))
      case None => None
  }

  // ---------------------------------------------------------------- key signature

  /** `[A-G]` under the `i` flag. */
  predicate IsNoteLetter(c: char) {
    'A' <= c <= 'G' || 'a' <= c <= 'g'
  }

  /**
   * The pattern `\b([A-G]#?\s*(?:maj|min))\b` matches from `p`: the letter at `p`, an
   * optional sharp ending at `q`, white space in `[q, w)` and "maj" or "min" at `w`.
   */
  ghost predicate KeyMatch(s: string, p: int, q: int, w: int) {
    && 0 <= p < q <= w && w + 3 <= |s|
    && Boundary(s, p) && IsNoteLetter(s[p])
    && (q == p + 1 || (q == p + 2 && s[p + 1] == '#'))
    && (forall k :: q <= k < w ==> IsSpace(s[k]))
    && (WordAt(s, w, "maj") || WordAt(s, w, "min"))
    && Boundary(s, w + 3)
  }

  /** The greedy attempt at position `p`: the end of the match, if the pattern matches there. */
  function KeyAt(s: string, p: nat): (r: Option<nat>)
    requires p <= |s|
    ensures r.Some? ==> p < r.value <= |s|
  {
    if !(p < |s| && IsNoteLetter(s[p]) && Boundary(s, p)) then None
    else
      var q := if p + 1 < |s| && s[p + 1] == '#' then p + 2 else p + 1;
      var w := RunEnd(s, q, IsSpace);
      if (WordAt(s, w, "maj") || WordAt(s, w, "min")) && Boundary(s, w + 3) then Some(w + 3)
      else None
  }

  lemma KeyAtSound(s: string, p: nat)
    requires p <= |s| && KeyAt(s, p).Some?
    ensures exists q, w :: KeyMatch(s, p, q, w) && KeyAt(s, p).value == w + 3
  {
    var q := if p + 1 < |s| && s[p + 1] == '#' then p + 2 else p + 1;
    var w := RunEnd(s, q, IsSpace);
    assert KeyMatch(s, p, q, w);
  }

  lemma KeyAtComplete(s: string, p: nat, q: int, w: int)
    requires p <= |s| && KeyMatch(s, p, q, w)
    ensures KeyAt(s, p) == Some(w + 3)
  {
    assert Lower(s[w..w + 3])[0] == LowerChar(s[w]);
    // a sharp after the letter is neither white space nor the 'm' of "maj"/"min"
    assert q == p + 1 && p + 1 < |s| ==> s[p + 1] != '#';
    var q' := if p + 1 < |s| && s[p + 1] == '#' then p + 2 else p + 1;
    assert q' == q;
    assert !IsSpace(s[w]);
    var w' := RunEnd(s, q', IsSpace);
    assert w' == w;
  }

  /** The attempt of the key pattern at every position of `s`, the end included. */
  function KeyAttempts(s: string): (a: seq<Option<nat>>)
    ensures |a| == |s| + 1 && forall k | 0 <= k <= |s| :: a[k] == KeyAt(s, k)
  {
    seq(|s| + 1, k requires 0 <= k <= |s| => KeyAt(s, k))
  }

  /** `name.match(/\b([A-G]#?\s*(?:maj|min))\b/i)?.[1]`: the key as it is written in the name. */
  function FindKey(s: string): Option<string> {
    match FirstHit(KeyAttempts(s), 0)
    case Some(Hit(p, e)) => Some(s[p..e])
    case None => None
  }

  /** What `FindKey` returns is the text of the leftmost match, and nothing when there is none. */
  lemma FindKeyIsLeftmostMatch(s: string)
    ensures FindKey(s).Some? ==>
      exists p, q, w :: KeyMatch(s, p, q, w) && FindKey(s).value == s[p..w + 3] &&
        forall p', q', w' :: KeyMatch(s, p', q', w') ==> p <= p'
    ensures FindKey(s).None? <==> forall p, q, w :: !KeyMatch(s, p, q, w)
  {
    var attempts := KeyAttempts(s);
    match FirstHit(attempts, 0)
    case Some(Hit(p, e)) =>
      FirstHitLeftmost(attempts, 0);
      KeyAtSound(s, p);
      var q, w :| KeyMatch(s, p, q, w) && e == w + 3;
      forall p', q', w' | KeyMatch(s, p', q', w') ensures p <= p' {
        KeyAtComplete(s, p', q', w');
      }
    case None =>
      FirstHitNone(attempts, 0);
      forall p, q, w | KeyMatch(s, p, q, w) ensures false {
        KeyAtComplete(s, p, q, w);
      }
  }

  // ---------------------------------------------------------------- examples

  /** "Kick 128 BPM.wav" is stored with tempo 128. */
  lemma BpmWithSpace(name: string)
    requires name == "Kick 128 BPM.wav"
    ensures StoredBpm(name, None) == Some(WholeNumber(128))
  {
    KickMatchesAtDigits(name);
    KickNoEarlierMatch(name);
    FirstHitStops(BpmAttempts(name), 0, 5);
    assert name[5..8] == "128";
    assert DecimalValue("128") == 128 by {
      assert "128"[..2] == "12" && "12"[..1] == "1" && "1"[..0] == "";
    }
  }

  lemma KickMatchesAtDigits(s: string)
    requires s == "Kick 128 BPM.wav"
    ensures BpmAt(s, 5) == Some(8)
  {
    assert RunEnd(s, 5, IsDigit) == 8 by {
      assert RunEnd(s, 8, IsDigit) == 8;
      assert RunEnd(s, 7, IsDigit) == 8;
      assert RunEnd(s, 6, IsDigit) == 8;
    }
    assert RunEnd(s, 8, IsSpace) == 9 by {
      assert RunEnd(s, 9, IsSpace) == 9;
    }
    assert WordAt(s, 9, "bpm") by {
      assert s[9..12] == "BPM";
    }
    assert Boundary(s, 12) && Boundary(s, 5);
  }

  lemma KickNoEarlierMatch(s: string)
    requires s == "Kick 128 BPM.wav"
    ensures forall k :: 0 <= k < 5 ==> BpmAt(s, k).None?
  {
    forall k | 0 <= k < 5
      ensures BpmAt(s, k).None?
    {
      assert s[..5] == "Kick ";
      assert s[k] == s[..5][k];
    }
  }

  /** The pattern starts with a digit: no match starts where there is none. */
  lemma NoBpmWithoutDigit(s: string, lo: nat, hi: nat)
    requires lo <= hi <= |s|
    requires forall k :: lo <= k < hi ==> !IsDigit(s[k])
    ensures forall k :: lo <= k < hi ==> BpmAt(s, k).None?
  {
  }

  /** `\b` fails between two word characters, so no match starts inside a word. */
  lemma NoBpmInsideWord(s: string, lo: nat, hi: nat)
    requires lo <= hi <= |s|
    requires forall k :: lo <= k < hi ==> IsWordChar(s[k])
    ensures forall k :: lo < k < hi ==> BpmAt(s, k).None?
  {
  }

  /** "Snare_128BPM.wav" gets no tempo: '_' and '1' are both word characters, so `\b` fails. */
  lemma BpmAfterUnderscore(name: string)
    requires name == "Snare_128BPM.wav"
    ensures StoredBpm(name, None) == None
  {
    assert forall k :: 0 <= k < 6 ==> !IsDigit(name[k]);
    assert forall k :: 9 <= k < 16 ==> !IsDigit(name[k]);
    assert forall k :: 5 <= k < 9 ==> IsWordChar(name[k]);
    NoBpmWithoutDigit(name, 0, 6);
    NoBpmInsideWord(name, 5, 9);
    NoBpmWithoutDigit(name, 9, 16);
    FirstHitNone(BpmAttempts(name), 0);
  }

  /** The key keeps the letter case and the inner white space of the name. */
  lemma KeyKeepsCase(name: string)
    requires name == "Pad a MIN.wav"
    ensures FindKey(name) == Some("a MIN")
  {
    PadMatchesAtLetter(name);
    PadNoEarlierMatch(name);
    FirstHitStops(KeyAttempts(name), 0, 4);
    assert name[4..9] == "a MIN";
  }

  lemma PadMatchesAtLetter(s: string)
    requires s == "Pad a MIN.wav"
    ensures KeyAt(s, 4) == Some(9)
  {
    assert RunEnd(s, 5, IsSpace) == 6 by {
      assert RunEnd(s, 6, IsSpace) == 6;
    }
    assert WordAt(s, 6, "min") by {
      assert s[6..9] == "MIN";
    }
    assert Boundary(s, 9) && Boundary(s, 4);
  }

  lemma PadNoEarlierMatch(s: string)
    requires s == "Pad a MIN.wav"
    ensures forall k :: 0 <= k < 4 ==> KeyAt(s, k).None?
  {
    forall k | 0 <= k < 4
      ensures KeyAt(s, k).None?
    {
      assert s[..4] == "Pad ";
      assert s[k] == s[..4][k];
      assert k > 0 ==> s[k - 1] == s[..4][k - 1];
    }
  }

  /** The pattern starts with a note letter: no match starts where there is none. */
  lemma NoKeyWithoutLetter(s: string, lo: nat, hi: nat)
    requires lo <= hi <= |s|
    requires forall k :: lo <= k < hi ==> !IsNoteLetter(s[k])
    ensures forall k :: lo <= k < hi ==> KeyAt(s, k).None?
  {
  }

  /** No key match starts inside a word. */
  lemma NoKeyInsideWord(s: string, lo: nat, hi: nat)
    requires lo <= hi <= |s|
    requires forall k :: lo <= k < hi ==> IsWordChar(s[k])
    ensures forall k :: lo < k < hi ==> KeyAt(s, k).None?
  {
  }

  /** "maj" followed by a word character is no key. */
  lemma KeyNeedsBoundary(name: string)
    requires name == "Fmaj7.wav"
    ensures FindKey(name) == None
  {
    assert RunEnd(name, 1, IsSpace) == 1;
    assert !Boundary(name, 4);
    assert KeyAt(name, 0).None?;
    assert forall k :: 0 <= k < 5 ==> IsWordChar(name[k]);
    assert forall k :: 6 <= k < 9 ==> IsWordChar(name[k]);
    assert forall k :: 5 <= k < 7 ==> !IsNoteLetter(name[k]);
    NoKeyInsideWord(name, 0, 5);
    NoKeyWithoutLetter(name, 5, 7);
    NoKeyInsideWord(name, 6, 9);
    FirstHitNone(KeyAttempts(name), 0);
  }
}
