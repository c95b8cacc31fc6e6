/**
 * The `DownloadButton` component: the file name it takes from a `Content-Disposition`
 * header with the regular expression `filename="(.+)"`, and the state it moves through
 * for one click.
 */
module Download {
  import opened Wrappers

  const DEFAULT_FILE_NAME: string := "audio-file.wav"
  const DOWNLOAD_ERROR: string := "Failed to download the audio file. Please try again."
  /** The literal part of the expression before the capture group. */
  const FILENAME_LABEL: string := "filename=\""

  /** The characters a `.` without the `s` flag does not match. */
  predicate IsLineTerminator(c: char) {
    c == '\n' || c == '\r' || c == '\U{2028}' || c == '\U{2029}'
  }

  predicate LabelAt(s: string, p: nat) {
    p + |FILENAME_LABEL| <= |s| && s[p..p + |FILENAME_LABEL|] == FILENAME_LABEL
  }

  /**
   * The expression can match at `p` with its closing quote at `j`: the label starts at
   * `p`, at least one character follows it, and no line terminator lies between the
   * label and the quote.
   */
  predicate MatchEnds(s: string, p: nat, j: nat) {
    LabelAt(s, p) && p + |FILENAME_LABEL| < j < |s| && s[j] == '"' &&
    forall k | p + |FILENAME_LABEL| <= k < j :: !IsLineTerminator(s[k])
  }

  /** The first line terminator at or after `i`, or the end of `s`. */
  function LineEnd(s: string, i: nat): (r: nat)
    requires i <= |s|
    ensures i <= r <= |s|
    ensures forall k | i <= k < r :: !IsLineTerminator(s[k])
    ensures r < |s| ==> IsLineTerminator(s[r])
    decreases |s| - i
  {
    if i == |s| || IsLineTerminator(s[i]) then i else LineEnd(s, i + 1)
  }

  /** The last double quote in `s[lo..hi]`. */
  function LastQuote(s: string, lo: nat, hi: nat): (r: Option<nat>)
    requires hi <= |s|
    ensures r.Some? ==> lo <= r.value < hi && s[r.value] == '"' && forall k | r.value < k < hi :: s[k] != '"'
    ensures r.None? ==> forall k | lo <= k < hi :: s[k] != '"'
    decreases hi
  {
    if hi <= lo then None
    else if s[hi - 1] == '"' then Some(hi - 1)
    else LastQuote(s, lo, hi - 1)
  }

  /** Where the greedy `.+"` ends when the label sits at `p`: its last possible quote. */
  function MatchEndAt(s: string, p: nat): (r: Option<nat>)
    requires LabelAt(s, p)
    ensures r.Some? ==> MatchEnds(s, p, r.value) && forall k: nat | MatchEnds(s, p, k) :: k <= r.value
    ensures r.None? ==> forall k: nat :: !MatchEnds(s, p, k)
  {
    var start := p + |FILENAME_LABEL|;
    var lineEnd := LineEnd(s, start);
    var r := LastQuote(s, start + 1, lineEnd);
    r
  }

  /** The scan of the expression from position `p` on: the first position where it matches. */
  function FirstMatchFrom(s: string, p: nat): (r: Option<string>)
    decreases |s| - p
  {
    if p + |FILENAME_LABEL| > |s| then None
    else if LabelAt(s, p) && MatchEndAt(s, p).Some? then
      Some(s[p + |FILENAME_LABEL|..MatchEndAt(s, p).value])
    else FirstMatchFrom(s, p + 1)
  }

  /** `header.match(/filename="(.+)"/)?.[1]`. */
  function MatchFilename(header: string): Option<string> {
    FirstMatchFrom(header, 0)
  }

  /** The scan from `p` finds nothing exactly when no label at or after `p` has a closing quote. */
  lemma {:induction false} FirstMatchFromNone(s: string, p: nat)
    ensures FirstMatchFrom(s, p).None? <==> forall q: nat, j: nat | p <= q :: !MatchEnds(s, q, j)
    decreases |s| - p
  {
    if p + |FILENAME_LABEL| <= |s| {
      FirstMatchFromNone(s, p + 1);
      if LabelAt(s, p) && MatchEndAt(s, p).Some? {
        assert MatchEnds(s, p, MatchEndAt(s, p).value);
      }
    }
  }

  /** The scan from `p` stops at the first label with a closing quote and captures up to its last one. */
  lemma {:induction false} FirstMatchFromLeftmost(s: string, p: nat, q: nat)
    requires p <= q && LabelAt(s, q) && MatchEndAt(s, q).Some?
    requires forall q': nat, k: nat | p <= q' < q :: !MatchEnds(s, q', k)
    ensures FirstMatchFrom(s, p) == Some(s[q + |FILENAME_LABEL|..MatchEndAt(s, q).value])
    decreases q - p
  {
    if p < q {
      FirstMatchFromLeftmost(s, p + 1, q);
    }
  }

  /**
   * The expression matches at the leftmost label followed by a closing quote on its line,
   * and captures up to the last such quote.
   */
  lemma MatchFilenameIsLeftmostGreedy(header: string, q: nat)
    requires LabelAt(header, q) && MatchEndAt(header, q).Some?
    requires forall q': nat, k: nat | q' < q :: !MatchEnds(header, q', k)
    ensures MatchFilename(header) == Some(header[q + |FILENAME_LABEL|..MatchEndAt(header, q).value])
  {
    FirstMatchFromLeftmost(header, 0, q);
  }

  /** The expression matches nothing exactly when no label has a closing quote on its line. */
  lemma MatchFilenameNone(header: string)
    ensures MatchFilename(header).None? <==> forall q: nat, j: nat :: !MatchEnds(header, q, j)
  {
    FirstMatchFromNone(header, 0);
  }

  /** `disposition?.match(/filename="(.+)"/)?.[1] ?? fileName`. */
  function ExtractFileName(disposition: Option<string>, fileName: string): (r: string)
    ensures disposition.None? ==> r == fileName
    ensures disposition.Some? && MatchFilename(disposition.value).None? ==> r == fileName
    ensures disposition.Some? && MatchFilename(disposition.value).Some? ==> r == MatchFilename(disposition.value).value
  {
    match disposition
    case None => fileName
    case Some(header) => MatchFilename(header).GetOr(fileName)
  }

  /**
   * A name quoted after the label is extracted whole, quotes inside it included, provided
   * nothing before the label holds a double quote, no line break lies inside the name, and
   * no double quote follows the closing one.
   */
  lemma QuotedNameExtracted(before: string, name: string, after: string, fileName: string)
    requires '"' !in before && '"' !in after
    requires name != "" && forall k | 0 <= k < |name| :: !IsLineTerminator(name[k])
    ensures ExtractFileName(Some(before + FILENAME_LABEL + name + "\"" + after), fileName) == name
  {
    var s := before + FILENAME_LABEL + name + "\"" + after;
    var p := |before|;
    var start := p + |FILENAME_LABEL|;
    var j := start + |name|;
    assert s[p..start] == FILENAME_LABEL;
    assert s[j] == '"';
    forall k | start <= k < j ensures !IsLineTerminator(s[k]) {
      assert s[k] == name[k - start];
    }
    assert MatchEnds(s, p, j);
    forall q: nat, k: nat | q < p ensures !MatchEnds(s, q, k) {
      var quoteAt := q + |FILENAME_LABEL| - 1;
      if quoteAt < p {
        assert s[quoteAt] == before[quoteAt];
      } else {
        assert s[quoteAt] == FILENAME_LABEL[quoteAt - p];
      }
      assert s[q..q + |FILENAME_LABEL|][|FILENAME_LABEL| - 1] == s[quoteAt];
    }
    forall k | j < k < |s| ensures s[k] != '"' {
      assert s[k] == after[k - j - 1];
    }
    assert MatchEndAt(s, p) == Some(j);
    MatchFilenameIsLeftmostGreedy(s, p);
    assert s[start..j] == name;
  }

  /** The greedy capture runs to the last quote: `filename="a"; b="c"` names the file `a"; b="c`. */
  lemma GreedyCaptureRunsToLastQuote(fileName: string)
    ensures ExtractFileName(Some("filename=\"a\"; b=\"c\""), fileName) == "a\"; b=\"c"
  {
    QuotedNameExtracted("", "a\"; b=\"c", "", fileName);
    assert "" + FILENAME_LABEL + "a\"; b=\"c" + "\"" + "" == "filename=\"a\"; b=\"c\"";
  }

  /** A header with no double quote at all, such as an unquoted `filename=kick.wav`, keeps the default name. */
  lemma UnquotedHeaderKeepsDefault(header: string, fileName: string)
    requires '"' !in header
    ensures ExtractFileName(Some(header), fileName) == fileName
  {
    MatchFilenameNone(header);
    forall q: nat, j: nat ensures !MatchEnds(header, q, j) {
      if q + |FILENAME_LABEL| < j < |header| {
        assert header[j] != '"';
      }
    }
  }

  /** An empty quoted name matches nothing, since the capture needs a character: the default stays. */
  lemma EmptyQuotedNameKeepsDefault(header: string, fileName: string)
    requires header == FILENAME_LABEL + "\""
    ensures ExtractFileName(Some(header), fileName) == fileName
  {
    MatchFilenameNone(header);
    assert forall q: nat, j: nat :: !MatchEnds(header, q, j);
  }

  /** How the request of `handleDownload` ended: a response, or a rejected fetch or body read. */
  datatype FetchResponse = Fetched(ok: bool, contentDisposition: Option<string>) | FetchFailed

  /** The component, with the names of the download links it has clicked. */
  class DownloadButton {
    const fileName: string
    var isLoading: bool
    var error: Option<string>
    var downloads: seq<string>

    /** The `fileName` prop defaults to `audio-file.wav` when it is not given. */
    constructor(fileNameProp: Option<string>)
      ensures fileName == fileNameProp.GetOr(DEFAULT_FILE_NAME)
      ensures !isLoading && error == None && downloads == []
    {
      fileName := fileNameProp.GetOr(DEFAULT_FILE_NAME);
      isLoading := false;
      error := None;
      downloads := [];
    }

    /**
     * `handleDownload`: a successful response clicks one link named from its header or the
     * default; any failure clicks nothing and shows the fixed error message.
     */
    method HandleDownload(response: FetchResponse)
      modifies this
      ensures !isLoading
      ensures response.Fetched? && response.ok ==>
        error == None && downloads == old(downloads) + [ExtractFileName(response.contentDisposition, fileName)]
      ensures !(response.Fetched? && response.ok) ==>
        error == Some(DOWNLOAD_ERROR) && downloads == old(downloads)
    {
      isLoading := true;
      error := None;
      if response.Fetched? && response.ok {
        var extractedFileName := ExtractFileName(response.contentDisposition, fileName);
        downloads := downloads + [extractedFileName];
      } else {
        error := Some(DOWNLOAD_ERROR);
      }
      isLoading := false;
    }
  }
}
