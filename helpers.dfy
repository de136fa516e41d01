/**
 * The small, stateless helpers of utils/helpers.py: the extension test on
 * upload names, text truncation for display, the collision-free upload name
 * and the display form of a timestamp.
 */
module Helpers {
  import opened Wrappers
  import opened Text

  /**
   * validate_file_type: a name without '.' is refused; otherwise its
   * extension, the text after the last '.', lower-cased, must be one of the
   * allowed ones.
   */
  function ValidateFileType(filename: string, allowed: set<string>): (r: bool)
    ensures '.' !in filename ==> !r
    ensures '.' in filename ==> (r <==> Lower(AfterLast(filename, '.')) in allowed)
  {
    '.' in filename && Lower(AfterLast(filename, '.')) in allowed
  }

  /** The extension the test reads is also the last field of `split('.')`, as the OCR path reads it. */
  lemma ValidateFileTypeBySplit(filename: string, allowed: set<string>)
    requires '.' in filename
    ensures var parts := Split(filename, '.');
      ValidateFileType(filename, allowed) <==> Lower(parts[|parts| - 1]) in allowed
  {
    SplitLastIsAfterLast(filename, '.');
  }

  /** Python's `s[:n]`: a negative `n` counts from the end, and the slice never overruns. */
  function PyPrefix(s: string, n: int): (r: string)
    ensures StartsWith(s, r)
    ensures n >= 0 ==> |r| == if n <= |s| then n else |s|
    ensures n < 0 ==> |r| == if |s| + n >= 0 then |s| + n else 0
  {
    if n >= 0 then (if n <= |s| then s[..n] else s)
    else if |s| + n >= 0 then s[..|s| + n] else ""
  }

  /**
   * truncate_text: text no longer than the limit is returned unchanged;
   * longer text is cut to the limit and "..." is appended.
   */
  function TruncateText(text: string, maxLength: int): (r: string)
    ensures |text| <= maxLength ==> r == text
    ensures |text| > maxLength ==> EndsWith(r, "...") && StartsWith(text, r[..|r| - 3])
    ensures |text| > maxLength && maxLength >= 0 ==> |r| == maxLength + 3
  {
    if |text| <= maxLength then text else PyPrefix(text, maxLength) + "..."
  }

  /** Truncation never makes a long text longer than the limit plus the ellipsis, and never touches a short one. */
  lemma TruncateTextBound(text: string, maxLength: nat)
    ensures |TruncateText(text, maxLength)| <= maxLength + 3
    ensures |TruncateText(text, maxLength)| <= |text| || |text| > maxLength
  {
  }

  /** There is a character other than '.' in s[lo..hi]. */
  predicate HasNonDot(s: string, lo: int, hi: int)
    requires 0 <= lo <= hi <= |s|
  {
    exists i | lo <= i < hi :: s[i] != '.'
  }

  /**
   * Python's `os.path.splitext` for '/'-separated paths: the extension runs
   * from the last '.' to the end, provided that '.' lies after the last '/'
   * and is not part of the leading dots of the final component.
   */
  function SplitExt(p: string): (r: (string, string))
    ensures r.0 + r.1 == p
    ensures r.1 == "" || (r.1[0] == '.' && '.' !in r.1[1..] && '/' !in r.1)
  {
    var sep := LastIndex(p, '/');
    var dot := LastIndex(p, '.');
    if dot > sep && HasNonDot(p, sep + 1, dot) then
      assert p[..dot] + p[dot..] == p;
      assert p[dot..][1..] == p[dot + 1..];
      (p[..dot], p[dot..])
    else (p, "")
  }

  /**
   * generate_unique_filename: stem, '_', the timestamp, '_', the first eight
   * characters of the uuid, then the original extension.
   */
  function GenerateUniqueFilename(original: string, timestamp: string, uuid: string): (r: string)
    ensures StartsWith(r, SplitExt(original).0 + "_")
    ensures EndsWith(r, SplitExt(original).1)
  {
    var (name, ext) := SplitExt(original);
    var head := name + "_";
    var middle := timestamp + "_" + PyPrefix(uuid, 8);
    ConcatEnds(head, middle + ext);
    ConcatEnds(head + middle, ext);
    assert head + middle + ext == head + (middle + ext);
    head + middle + ext
  }

  /**
   * Reading the extension back from a generated name gives the original
   * extension, as long as the timestamp and uuid hold no '.' or '/' (the
   * `%Y%m%d_%H%M%S` stamp and a hex uuid hold neither).
   */
  lemma GeneratedNameKeepsExtension(original: string, timestamp: string, uuid: string)
    requires '.' !in timestamp && '/' !in timestamp && '.' !in uuid && '/' !in uuid
    ensures SplitExt(GenerateUniqueFilename(original, timestamp, uuid)).1 == SplitExt(original).1
  {
    var (name, ext) := SplitExt(original);
    var stamp := PyPrefix(uuid, 8);
    var mid := "_" + (timestamp + "_" + stamp);
    assert '.' !in stamp && '/' !in stamp by {
      assert forall k :: 0 <= k < |stamp| ==> stamp[k] == uuid[k];
    }
    assert GenerateUniqueFilename(original, timestamp, uuid) == (name + "_") + (timestamp + "_" + stamp) + ext;
    assert (name + "_") + (timestamp + "_" + stamp) + ext == name + mid + ext;
    if ext == "" {
      NoExtensionKept(original, mid);
    } else {
      ExtensionKept(original, mid);
    }
  }

  /** Appending text without '.' or '/' to a name that has no extension gives a name without one. */
  lemma NoExtensionKept(original: string, mid: string)
    requires '.' !in mid && '/' !in mid
    requires SplitExt(original).1 == ""
    ensures SplitExt(original + mid).1 == ""
  {
    var r := original + mid;
    LastIndexAppend(original, mid, '.');
    LastIndexAppend(original, mid, '/');
  }

  /** Inserting text without '.' or '/' between a stem and its extension keeps the extension. */
  lemma ExtensionKept(original: string, mid: string)
    requires '.' !in mid && '/' !in mid
    requires SplitExt(original).1 != ""
    ensures var (name, ext) := SplitExt(original); SplitExt(name + mid + ext).1 == ext
  {
    var (name, ext) := SplitExt(original);
    var r := name + mid + ext;
    var sep := LastIndex(original, '/');
    var dot := LastIndex(original, '.');
    assert original == name + ext && |name| == dot;
    SlashKept(name, mid, ext);
    DotMoved(name, mid, ext);
    var i :| sep + 1 <= i < dot && original[i] != '.';
    assert r[i] == original[i];
    assert HasNonDot(r, sep + 1, |name| + |mid|);
    assert r[|name| + |mid|..] == ext;
  }

  /** The last '/' stays where it was when the inserted text and the extension hold none. */
  lemma SlashKept(name: string, mid: string, ext: string)
    requires '/' !in mid && '/' !in ext
    ensures LastIndex(name + mid + ext, '/') == LastIndex(name + ext, '/')
  {
    assert name + mid + ext == name + (mid + ext);
    assert '/' !in mid + ext;
    LastIndexAppend(name, mid + ext, '/');
    LastIndexAppend(name, ext, '/');
  }

  /** The extension's '.' is still the last one, now after the inserted text. */
  lemma DotMoved(name: string, mid: string, ext: string)
    requires '.' !in mid && |ext| > 0 && ext[0] == '.' && '.' !in ext[1..]
    ensures LastIndex(name + mid + ext, '.') == |name| + |mid|
  {
    var pre := name + mid + ext[..1];
    assert name + mid + ext == pre + ext[1..];
    LastIndexAppend(pre, ext[1..], '.');
    assert pre[|pre| - 1] == '.';
  }

  /** format_datetime: the parsed and re-rendered form when the parse succeeds, the input unchanged otherwise. */
  function FormatDatetime(dtString: string, rendered: Option<string>): (r: string)
    ensures rendered.None? ==> r == dtString
    ensures rendered.Some? ==> r == rendered.value
  {
    rendered.GetOr(dtString)
  }
}
