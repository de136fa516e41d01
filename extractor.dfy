/**
 * The deterministic pieces of models/observation_extractor.py: the file
 * type sent to the OCR service, the fallback formatter that turns raw text
 * into an Observer/Child dialogue, the emoji-to-text substitution applied
 * before PDF rendering, and the configuration guard of the report mailer.
 * The OCR, speech and language-model services are not modelled.
 */
module Extractor {
  import opened Wrappers
  import opened Text

  /**
   * The OCR path's file type: the last '.'-separated field of the name,
   * lower-cased, with "jpeg" spelled "jpg".
   */
  function OcrFileType(filename: string): string
  {
    var parts := Split(filename, '.');
    var e := Lower(parts[|parts| - 1]);
    if e == "jpeg" then "jpg" else e
  }

  /** The OCR file type is the lower-cased text after the last '.', with "jpeg" spelled "jpg"; it holds no '.'. */
  lemma OcrFileTypeMeaning(filename: string)
    ensures '.' !in OcrFileType(filename)
    ensures var e := Lower(AfterLast(filename, '.')); OcrFileType(filename) == if e == "jpeg" then "jpg" else e
  {
    var parts := Split(filename, '.');
    var last := parts[|parts| - 1];
    SplitLastIsAfterLast(filename, '.');
    LowerKeepsOut(last, '.');
  }

  // ---- Fallback transcript formatting ----

  /** The speaker text for the line at index i: even lines are the observer's. */
  function Speaker(i: nat): string
  {
    if i % 2 == 0 then "Observer: " else "Child: "
  }

  predicate Blank(line: string)
  {
    Strip(line) == ""
  }

  /**
   * The dialogue lines for `lines`: each non-blank line, stripped and labelled
   * by its index among ALL lines (blank ones included).
   */
  function FormattedLines(lines: seq<string>): seq<string>
  {
    if |lines| == 0 then []
    else
      var n := |lines| - 1;
      FormattedLines(lines[..n]) + (if Blank(lines[n]) then [] else [Speaker(n) + Strip(lines[n])])
  }

  function NonBlankCount(lines: seq<string>): nat
  {
    if |lines| == 0 then 0
    else NonBlankCount(lines[..|lines| - 1]) + (if Blank(lines[|lines| - 1]) then 0 else 1)
  }

  /** The fixed dialogue used when every line is blank; the raw text is cut at 100 characters. */
  function FallbackLines(rawText: string): seq<string>
  {
    [ "Observer: Can you tell me about what you learned today?",
      if |rawText| > 100 then "Child: " + rawText[..100] + "..." else "Child: " + rawText,
      "Observer: That's wonderful! Can you tell me more about it?",
      "Child: Yes, I enjoyed learning about this topic." ]
  }

  /** _basic_transcript_formatting as a value. */
  function BasicTranscript(rawText: string): string
  {
    var formatted := FormattedLines(Split(rawText, '\n'));
    Join(if formatted == [] then FallbackLines(rawText) else formatted, "\n")
  }

  /** _basic_transcript_formatting: the line loop, then the fallback, then the join. */
  method BasicTranscriptFormatting(rawText: string) returns (out: string)
    ensures out == BasicTranscript(rawText)
  {
    var lines := Split(rawText, '\n');
    var formatted: seq<string> := [];
    var i := 0;
    while i < |lines|
      invariant 0 <= i <= |lines|
      invariant formatted == FormattedLines(lines[..i])
    {
      FormattedLinesSnoc(lines, i);
      var line := Strip(lines[i]);
      if line != "" {
        formatted := formatted + [Speaker(i) + line];
      }
      i := i + 1;
    }
    assert lines[..i] == lines;
    if formatted == [] {
      formatted := FallbackLines(rawText);
    }
    out := Join(formatted, "\n");
  }

  lemma FormattedLinesSnoc(lines: seq<string>, i: int)
    requires 0 <= i < |lines|
    ensures FormattedLines(lines[..i + 1]) ==
      FormattedLines(lines[..i]) + (if Blank(lines[i]) then [] else [Speaker(i) + Strip(lines[i])])
  {
    assert lines[..i + 1][..i] == lines[..i];
  }

  /** Stripping keeps only characters of the original. */
  lemma StripChars(s: string, c: char)
    requires c !in s
    ensures c !in Strip(s)
  {
    var t := TrimStart(s);
    SliceKeepsOut(s, |s| - |t|, |s|, c);
    SliceKeepsOut(t, 0, |TrimEnd(t)|, c);
  }

  /** A dialogue line: a speaker label and no newline. */
  predicate DialogueLine(line: string)
  {
    '\n' !in line && (StartsWith(line, "Observer: ") || StartsWith(line, "Child: "))
  }

  /** One dialogue line per non-blank input line. */
  lemma {:induction false} FormattedLinesCount(lines: seq<string>)
    ensures |FormattedLines(lines)| == NonBlankCount(lines)
  {
    if |lines| > 0 {
      FormattedLinesCount(lines[..|lines| - 1]);
    }
  }

  /** A labelled, stripped line of a newline-free input line is a dialogue line. */
  lemma LabelledLine(i: nat, line: string)
    requires '\n' !in line
    ensures DialogueLine(Speaker(i) + Strip(line))
  {
    StripChars(line, '\n');
    NoNewlineAppend(Speaker(i), Strip(line));
  }

  /** A tag followed by a newline-free body starts with the tag and holds no newline. */
  lemma NoNewlineAppend(tag: string, body: string)
    requires '\n' !in tag && '\n' !in body
    ensures '\n' !in tag + body && StartsWith(tag + body, tag)
  {
    assert (tag + body)[..|tag|] == tag;
  }

  /** Every formatted line of newline-free input lines is a dialogue line. */
  lemma {:induction false} FormattedLinesShape(lines: seq<string>)
    requires forall k :: 0 <= k < |lines| ==> '\n' !in lines[k]
    ensures forall k :: 0 <= k < |FormattedLines(lines)| ==> DialogueLine(FormattedLines(lines)[k])
  {
    if |lines| > 0 {
      var n := |lines| - 1;
      FormattedLinesShape(lines[..n]);
      if !Blank(lines[n]) {
        LabelledLine(n, lines[n]);
      }
    }
  }

  /**
   * When some line is non-blank, the output splits back into exactly the
   * formatted lines: as many lines as non-blank input lines, each labelled.
   */
  lemma BasicTranscriptLines(rawText: string)
    requires NonBlankCount(Split(rawText, '\n')) > 0
    ensures var out := Split(BasicTranscript(rawText), '\n');
      out == FormattedLines(Split(rawText, '\n')) &&
      |out| == NonBlankCount(Split(rawText, '\n')) &&
      forall k :: 0 <= k < |out| ==> DialogueLine(out[k])
  {
    var lines := Split(rawText, '\n');
    FormattedLinesCount(lines);
    FormattedLinesShape(lines);
    SplitJoin(FormattedLines(lines), '\n');
  }

  /** With no non-blank line the fixed four-line dialogue is used, quoting at most 100 characters of the input. */
  lemma BasicTranscriptFallback(rawText: string)
    requires NonBlankCount(Split(rawText, '\n')) == 0
    ensures BasicTranscript(rawText) == Join(FallbackLines(rawText), "\n")
    ensures |FallbackLines(rawText)[1]| <= |"Child: "| + 103
  {
    FormattedLinesCount(Split(rawText, '\n'));
  }

  // ---- Emoji substitution before PDF rendering ----

  /** Python's `s.replace(pat, rep)`: every non-overlapping occurrence, scanning left to right. */
  function ReplaceAll(s: string, pat: string, rep: string): (r: string)
    requires |pat| > 0
    ensures |rep| > 0 && |s| > 0 ==> |r| > 0 && r[0] == if StartsWith(s, pat) then rep[0] else s[0]
    decreases |s|
  {
    if |s| == 0 then ""
    else if StartsWith(s, pat) then rep + ReplaceAll(s[|pat|..], pat, rep)
    else [s[0]] + ReplaceAll(s[1..], pat, rep)
  }

  /** A text that does not contain the searched string comes back unchanged. */
  lemma {:induction false} ReplaceAllAbsent(s: string, pat: string, rep: string)
    requires |pat| > 0 && !Contains(s, pat)
    ensures ReplaceAll(s, pat, rep) == s
  {
    if |s| > 0 {
      assert !OccursAt(s, pat, 0);
      assert !Contains(s[1..], pat) by {
        forall i | 0 <= i <= |s[1..]| ensures !OccursAt(s[1..], pat, i) {
          if OccursAt(s[1..], pat, i) {
            assert s[1..][i..i + |pat|] == s[i + 1..i + 1 + |pat|];
            assert OccursAt(s, pat, i + 1);
          }
        }
      }
      ReplaceAllAbsent(s[1..], pat, rep);
      assert s == [s[0]] + s[1..];
    }
  }

  /** The keys this model handles: one character, or a character and a variation selector. */
  predicate ShortKey(pat: string)
  {
    1 <= |pat| <= 2
  }

  /** No character of `a` occurs in `b`. */
  predicate Disjoint(a: string, b: string)
  {
    forall k :: 0 <= k < |a| ==> a[k] !in b
  }

  /** Past a prefix, an occurrence in the whole is an occurrence in the rest. */
  lemma OccursPastPrefix(p: string, t: string, pat: string, i: int)
    requires |p| <= i
    ensures OccursAt(p + t, pat, i) <==> OccursAt(t, pat, i - |p|)
  {
    if i + |pat| <= |p + t| {
      assert (p + t)[i..i + |pat|] == t[i - |p|..i - |p| + |pat|];
    }
  }

  /** A short key occurring at the front of `t` is decided by the first one or two characters. */
  lemma OccursAtFront(t: string, pat: string)
    requires ShortKey(pat)
    ensures OccursAt(t, pat, 0) <==> |pat| <= |t| && t[0] == pat[0] && (|pat| == 2 ==> t[1] == pat[1])
  {
    if |pat| <= |t| {
      if |pat| == 1 {
        assert t[..1] == [t[0]];
      } else {
        assert t[..2] == [t[0], t[1]];
      }
    }
  }

  /** An occurrence starting inside a replacement text would begin with one of its characters. */
  lemma NotInsideReplacement(rep: string, rest: string, pat: string, i: int)
    requires |pat| > 0 && 0 <= i < |rep| && pat[0] !in rep
    ensures !OccursAt(rep + rest, pat, i)
  {
    if i + |pat| <= |rep + rest| {
      assert (rep + rest)[i..i + |pat|][0] == rep[i];
    }
  }

  /** After replacing a short key by a non-empty text that shares no character with it, the key no longer occurs. */
  lemma {:induction false} ReplaceAllRemoves(s: string, pat: string, rep: string)
    requires ShortKey(pat) && |rep| > 0 && Disjoint(rep, pat)
    ensures !Contains(ReplaceAll(s, pat, rep), pat)
    decreases |s|
  {
    var r := ReplaceAll(s, pat, rep);
    if |s| > 0 {
      assert pat[0] !in rep && rep[0] !in pat;
      var skip := if StartsWith(s, pat) then |pat| else 1;
      var head := if StartsWith(s, pat) then rep else [s[0]];
      var rest := ReplaceAll(s[skip..], pat, rep);
      assert r == head + rest;
      ReplaceAllRemoves(s[skip..], pat, rep);
      forall i | 0 <= i <= |r| ensures !OccursAt(r, pat, i) {
        if i >= |head| {
          OccursPastPrefix(head, rest, pat, i);
        } else if StartsWith(s, pat) {
          NotInsideReplacement(rep, rest, pat, i);
        } else {
          OccursAtFront(r, pat);
          OccursAtFront(s, pat);
          if |pat| == 2 && |r| >= 2 {
            assert r[1] == rest[0];
            assert rest[0] == if StartsWith(s[1..], pat) then rep[0] else s[1];
          }
        }
      }
    }
  }

  /** A short key absent from the text stays absent from the rest after the first one or `skip` characters. */
  lemma AbsentInSuffix(s: string, key: string, skip: int)
    requires 0 <= skip <= |s| && !Contains(s, key)
    ensures !Contains(s[skip..], key)
  {
    forall i | 0 <= i <= |s[skip..]| ensures !OccursAt(s[skip..], key, i) {
      assert !OccursAt(s, key, i + skip);
      if i + |key| <= |s[skip..]| {
        assert s[skip..][i..i + |key|] == s[i + skip..i + skip + |key|];
      }
    }
  }

  /** Replacing some key by text disjoint from a short absent key cannot make that key appear. */
  lemma {:induction false} ReplaceAllKeepsAbsent(s: string, key: string, pat: string, rep: string)
    requires ShortKey(key) && |pat| > 0 && |rep| > 0 && Disjoint(rep, key) && !Contains(s, key)
    ensures !Contains(ReplaceAll(s, pat, rep), key)
    decreases |s|
  {
    var r := ReplaceAll(s, pat, rep);
    if |s| > 0 {
      assert key[0] !in rep && rep[0] !in key;
      var skip := if StartsWith(s, pat) then |pat| else 1;
      var head := if StartsWith(s, pat) then rep else [s[0]];
      AbsentInSuffix(s, key, skip);
      var rest := ReplaceAll(s[skip..], pat, rep);
      ReplaceAllKeepsAbsent(s[skip..], key, pat, rep);
      assert r == head + rest;
      forall i | 0 <= i <= |r| ensures !OccursAt(r, key, i) {
        if i >= |head| {
          OccursPastPrefix(head, rest, key, i);
        } else if StartsWith(s, pat) {
          NotInsideReplacement(rep, rest, key, i);
        } else {
          assert !OccursAt(s, key, 0);
          OccursAtFront(r, key);
          OccursAtFront(s, key);
          if |key| == 2 && |r| >= 2 {
            assert r[1] == rest[0];
            assert rest[0] == if StartsWith(s[1..], pat) then rep[0] else s[1];
          }
        }
      }
    }
  }

  predicate Ascii(s: string)
  {
    forall k :: 0 <= k < |s| ==> s[k] < '\U{80}'
  }

  predicate NonAscii(s: string)
  {
    forall k :: 0 <= k < |s| ==> s[k] >= '\U{80}'
  }

  /** An emoji: one or two non-ASCII characters. */
  type Emoji = s: string | ShortKey(s) && NonAscii(s) witness "\U{2705}"

  /** A replacement label: non-empty ASCII text. */
  type AsciiLabel = s: string | |s| > 0 && Ascii(s) witness "[]"

  const ChildMark: (Emoji, AsciiLabel) := ("\U{1F9D2}", "[Child]")
  const DateMark: (Emoji, AsciiLabel) := ("\U{1F4C5}", "[Date]")
  const SeedMark: (Emoji, AsciiLabel) := ("\U{1F331}", "[Curiosity Seed]")
  const MetricsMark: (Emoji, AsciiLabel) := ("\U{1F4CA}", "[Growth Metrics]")
  const IntellectualMark: (Emoji, AsciiLabel) := ("\U{1F9E0}", "[Intellectual]")
  const EmotionalMark: (Emoji, AsciiLabel) := ("\U{1F60A}", "[Emotional]")
  const SocialMark: (Emoji, AsciiLabel) := ("\U{1F91D}", "[Social]")
  const CreativityMark: (Emoji, AsciiLabel) := ("\U{1F3A8}", "[Creativity]")
  const PhysicalMark: (Emoji, AsciiLabel) := ("\U{1F3C3}", "[Physical]")
  const CharacterMark: (Emoji, AsciiLabel) := ("\U{1F9ED}", "[Character/Values]")
  const PlanningMark: (Emoji, AsciiLabel) := ("\U{1F680}", "[Planning/Independence]")
  const CuriosityMark: (Emoji, AsciiLabel) := ("\U{1F308}", "[Curiosity Response]")
  const CommunicationMark: (Emoji, AsciiLabel) := ("\U{1F5E3}\U{FE0F}", "[Communication Skills]")
  const ParentNoteMark: (Emoji, AsciiLabel) := ("\U{1F4E3}", "[Note for Parent]")
  const ExcellentMark: (Emoji, AsciiLabel) := ("\U{1F7E2}", "[Excellent]")
  const GoodMark: (Emoji, AsciiLabel) := ("\U{2705}", "[Good]")
  const FairMark: (Emoji, AsciiLabel) := ("\U{26A0}\U{FE0F}", "[Fair]")
  const NeedsWorkMark: (Emoji, AsciiLabel) := ("\U{1F4C8}", "[Needs Work]")
  const BalancedMark: (Emoji, AsciiLabel) := ("\U{1F535}", "[Balanced Growth]")
  const ModerateMark: (Emoji, AsciiLabel) := ("\U{1F7E1}", "[Moderate Growth]")
  const LimitedMark: (Emoji, AsciiLabel) := ("\U{1F534}", "[Limited Growth]")
  const GoodScoreMark: (Emoji, AsciiLabel) := ("\U{1F49A}", "[Good Score]")
  const ReportMark: (Emoji, AsciiLabel) := ("\U{1F4CB}", "[Report]")

  /** The substitutions of the PDF renderer, in the order they are applied. */
  const EmojiMap: seq<(Emoji, AsciiLabel)> := [
    ChildMark, DateMark, SeedMark, MetricsMark, IntellectualMark, EmotionalMark, SocialMark,
    CreativityMark, PhysicalMark, CharacterMark, PlanningMark, CuriosityMark, CommunicationMark,
    ParentNoteMark, ExcellentMark, GoodMark, FairMark, NeedsWorkMark, BalancedMark, ModerateMark,
    LimitedMark, GoodScoreMark, ReportMark ]

  /** An ASCII text shares no character with a non-ASCII key. */
  lemma AsciiDisjoint(text: string, key: string)
    requires Ascii(text) && NonAscii(key)
    ensures Disjoint(text, key)
  {
    forall k | 0 <= k < |text| ensures text[k] !in key {
      assert text[k] < '\U{80}';
    }
  }

  /** The substitutions applied in order. */
  function ReplaceEach(s: string, m: seq<(Emoji, AsciiLabel)>): string
  {
    if |m| == 0 then s
    else
      var n := |m| - 1;
      ReplaceAll(ReplaceEach(s, m[..n]), m[n].0, m[n].1)
  }

  /** After the substitutions no emoji of the map is left in the text. */
  lemma {:induction false} ReplaceEachRemovesKeys(s: string, m: seq<(Emoji, AsciiLabel)>)
    ensures forall k :: 0 <= k < |m| ==> !Contains(ReplaceEach(s, m), m[k].0)
  {
    if |m| > 0 {
      var n := |m| - 1;
      ReplaceEachRemovesKeys(s, m[..n]);
      var prev := ReplaceEach(s, m[..n]);
      forall k | 0 <= k < |m| ensures !Contains(ReplaceEach(s, m), m[k].0) {
        AsciiDisjoint(m[n].1, m[k].0);
        if k == n {
          ReplaceAllRemoves(prev, m[n].0, m[n].1);
        } else {
          assert m[..n][k] == m[k];
          ReplaceAllKeepsAbsent(prev, m[k].0, m[n].0, m[n].1);
        }
      }
    }
  }

  /** A text with no key at all passes through the substitutions unchanged. */
  lemma {:induction false} ReplaceEachIdentity(s: string, m: seq<(Emoji, AsciiLabel)>)
    requires forall k :: 0 <= k < |m| ==> !Contains(s, m[k].0)
    ensures ReplaceEach(s, m) == s
  {
    if |m| > 0 {
      var n := |m| - 1;
      ReplaceEachIdentity(s, m[..n]);
      ReplaceAllAbsent(s, m[n].0, m[n].1);
    }
  }

  /** create_pdf_alternative's substitution loop: after it, no mapped emoji is left. */
  method ReplaceEmojis(reportContent: string) returns (pdfContent: string)
    ensures pdfContent == ReplaceEach(reportContent, EmojiMap)
    ensures forall k :: 0 <= k < |EmojiMap| ==> !Contains(pdfContent, EmojiMap[k].0)
  {
    pdfContent := reportContent;
    var i := 0;
    while i < |EmojiMap|
      invariant 0 <= i <= |EmojiMap|
      invariant pdfContent == ReplaceEach(reportContent, EmojiMap[..i])
    {
      assert EmojiMap[..i + 1][..i] == EmojiMap[..i];
      pdfContent := ReplaceAll(pdfContent, EmojiMap[i].0, EmojiMap[i].1);
      i := i + 1;
    }
    assert EmojiMap[..i] == EmojiMap;
    ReplaceEachRemovesKeys(reportContent, EmojiMap);
  }

  // ---- Mailer guard ----

  /** What the mail transport reports back. */
  datatype SmtpOutcome = Delivered | AuthenticationFailed | SmtpFailure(detail: string) | OtherFailure(detail: string)

  /**
   * send_email: without a configured password it answers (False, "Email
   * password not configured") and never reaches the transport; otherwise it
   * answers success exactly when the transport delivered.
   */
  function SendEmail(password: Option<string>, recipient: string, outcome: SmtpOutcome): (r: (bool, string))
    ensures (password.None? || password.value == "") ==> r == (false, "Email password not configured")
    ensures password.Some? && password.value != "" ==> (r.0 <==> outcome.Delivered?)
    ensures r.0 ==> r.1 == "Email sent to " + recipient
  {
    if password.None? || password.value == "" then (false, "Email password not configured")
    else
      match outcome
      case Delivered => (true, "Email sent to " + recipient)
      case AuthenticationFailed => (false, "Error: Authentication failed. Check your email and password.")
      case SmtpFailure(d) => (false, "Error: Failed to send email. " + d)
      case OtherFailure(d) => (false, "Error: " + d)
  }
}
