/** The name under which a freshly created backup is saved: taken from the response's
    `Content-Disposition` header by the regular expression `filename="(.+)"`, with a fixed
    default. */
module BackupManager {
  import opened Schema

  const DEFAULT_FILENAME: string := "football_backup.db"

  /** The literal text the expression starts with. */
  const PREFIX: string := "filename=\""

  /** The characters `.` does not match in a JavaScript regular expression. */
  predicate IsLineTerminator(c: char)
  {
    c == '\n' || c == '\r' || c == '\U{2028}' || c == '\U{2029}'
  }

  /** The expression matches `s` starting at `i` with its group ending before `j`: the
      prefix at `i`, at least one character up to `j` with no line terminator, and a quote at
      `j`. */
  ghost predicate MatchesAt(s: string, i: nat, j: nat)
  {
    i + |PREFIX| < j < |s| && s[i..i + |PREFIX|] == PREFIX && s[j] == '"'
    && forall m :: i + |PREFIX| <= m < j ==> !IsLineTerminator(s[m])
  }

  /** The end of the line that position `k` is on: the first line terminator at or after
      `k`, or the end of `s`. */
  function LineEnd(s: string, k: nat): (e: nat)
    requires k <= |s|
    ensures k <= e <= |s|
    ensures e < |s| ==> IsLineTerminator(s[e])
    ensures forall m :: k <= m < e ==> !IsLineTerminator(s[m])
    decreases |s| - k
  {
    if k == |s| || IsLineTerminator(s[k]) then k else LineEnd(s, k + 1)
  }

  /** The last quote in `s[lo..hi]`, if any. */
  function LastQuote(s: string, lo: nat, hi: nat): (r: Option<nat>)
    requires lo <= hi <= |s|
    ensures r.Some? ==> lo <= r.value < hi && s[r.value] == '"'
                        && forall m :: r.value < m < hi ==> s[m] != '"'
    ensures r.None? ==> forall m :: lo <= m < hi ==> s[m] != '"'
    decreases hi - lo
  {
    if hi == lo then None
    else if s[hi - 1] == '"' then Some(hi - 1)
    else LastQuote(s, lo, hi - 1)
  }

  /** The greedy match at `i`: `.+` runs to the end of the line and backs off to the last
      quote that still leaves it at least one character. */
  function MatchAt(s: string, i: nat): Option<nat>
    requires i <= |s|
  {
    if i + |PREFIX| < |s| && s[i..i + |PREFIX|] == PREFIX then
      var e := LineEnd(s, i + |PREFIX|);
      if i + |PREFIX| + 1 <= e then LastQuote(s, i + |PREFIX| + 1, e) else None
    else None
  }

  /** `MatchAt` finds a match exactly when there is one at `i`, and then the longest. */
  lemma {:induction false} MatchAtSpec(s: string, i: nat)
    requires i <= |s|
    ensures MatchAt(s, i).Some? ==> MatchesAt(s, i, MatchAt(s, i).value)
    ensures MatchAt(s, i).Some? ==> forall j: nat :: MatchesAt(s, i, j) ==> j <= MatchAt(s, i).value
    ensures MatchAt(s, i).None? ==> forall j: nat :: !MatchesAt(s, i, j)
  {
    if i + |PREFIX| < |s| && s[i..i + |PREFIX|] == PREFIX {
      var e := LineEnd(s, i + |PREFIX|);
      forall j: nat | MatchesAt(s, i, j) ensures j < e && i + |PREFIX| + 1 <= e {
        assert !IsLineTerminator(s[j]);
      }
    }
  }

  /** The leftmost start at or after `from` with a match, and the end of its group. */
  function Search(s: string, from: nat): Option<(nat, nat)>
    requires from <= |s|
    decreases |s| - from
  {
    if from == |s| then None
    else if MatchAt(s, from).Some? then Some((from, MatchAt(s, from).value))
    else Search(s, from + 1)
  }

  /** `Search` gives the leftmost match, and within it the longest; `None` means no match
      starts at or after `from`. */
  lemma {:induction false} SearchSpec(s: string, from: nat)
    requires from <= |s|
    ensures var r := Search(s, from);
            r.Some? ==> from <= r.value.0 && MatchesAt(s, r.value.0, r.value.1)
                        && (forall i: nat, j: nat :: from <= i < r.value.0 ==> !MatchesAt(s, i, j))
                        && (forall j: nat :: MatchesAt(s, r.value.0, j) ==> j <= r.value.1)
    ensures Search(s, from).None? ==> forall i: nat, j: nat :: from <= i ==> !MatchesAt(s, i, j)
    decreases |s| - from
  {
    if from < |s| {
      MatchAtSpec(s, from);
      if MatchAt(s, from).None? {
        SearchSpec(s, from + 1);
        var r := Search(s, from + 1);
        assert Search(s, from) == r;
        var end := if r.Some? then r.value.0 else |s|;
        forall i: nat, j: nat | from <= i < end ensures !MatchesAt(s, i, j) {
          if i == from {
            assert !MatchesAt(s, from, j);
          }
        }
      }
    }
  }

  /** `contentDisposition.match(/filename="(.+)"/)`, reduced to the captured group. */
  function Capture(header: string): (r: Option<string>)
    ensures r.Some? ==> |r.value| >= 1
  {
    var found := Search(header, 0);
    if found.None? then None
    else
      SearchSpec(header, 0);
      Some(header[found.value.0 + |PREFIX| .. found.value.1])
  }

  /** There is no capture exactly when the expression matches nowhere. */
  lemma CaptureNone(header: string)
    ensures Capture(header).None? <==> forall i: nat, j: nat :: !MatchesAt(header, i, j)
  {
    SearchSpec(header, 0);
  }

  /** The capture is the group of the leftmost match, taken as long as it can be: the text
      after the first `filename="` that opens a match, up to the last quote on its line. */
  lemma CaptureLeftmostLongest(header: string, i: nat, j: nat)
    requires MatchesAt(header, i, j)
    requires forall i': nat, j': nat :: i' < i ==> !MatchesAt(header, i', j')
    requires forall j': nat :: MatchesAt(header, i, j') ==> j' <= j
    ensures Capture(header) == Some(header[i + |PREFIX| .. j])
  {
    SearchSpec(header, 0);
  }

  /** A header that quotes the file name, with no quote or line break inside the name, gives
      back exactly that name. */
  lemma CaptureOfQuotedName(name: string)
    requires |name| >= 1
    requires forall m :: 0 <= m < |name| ==> name[m] != '"' && !IsLineTerminator(name[m])
    ensures Capture("attachment; " + PREFIX + name + "\"") == Some(name)
  {
    var h := "attachment; " + PREFIX + name + "\"";
    var i, j := 12, 12 + |PREFIX| + |name|;
    assert h[i..i + |PREFIX|] == PREFIX;
    assert h[i + |PREFIX| .. j] == name;
    assert MatchesAt(h, i, j);
    forall i': nat, j': nat | i' < i ensures !MatchesAt(h, i', j') {
      assert h[i'] == "attachment; "[i'];
      assert h[i'] != PREFIX[0];
    }
    CaptureLeftmostLongest(h, i, j);
  }

  /** The download name: the default unless the header is present, non-empty and matched,
      and then the capture; never empty. */
  method BackupFilename(contentDisposition: Option<string>) returns (filename: string)
    ensures |filename| >= 1
    ensures contentDisposition.None? || contentDisposition.value == "" ==> filename == DEFAULT_FILENAME
    ensures contentDisposition.Some? && Capture(contentDisposition.value).None? ==>
              filename == DEFAULT_FILENAME
    ensures contentDisposition.Some? && Capture(contentDisposition.value).Some? ==>
              filename == Capture(contentDisposition.value).value
  {
    filename := DEFAULT_FILENAME;
    if contentDisposition.Some? && contentDisposition.value != "" {
      var filenameMatch := Capture(contentDisposition.value);
      if filenameMatch.Some? {
        filename := filenameMatch.value;
      }
    }
  }
}
