/**
 * Object naming and bucket choice of the upload helper, in the current
 * copy of the store layer and in the older Final_Obs copy. The storage
 * service itself is not modelled: the upload is reduced to the object name
 * and bucket it would use, and the uuid is a parameter.
 */
module Storage {
  import opened Text

  /** The characters `\w` matches, restricted to ASCII: letters, digits and '_'. */
  predicate IsWordChar(c: char)
  {
    ('a' <= c <= 'z') || ('A' <= c <= 'Z') || ('0' <= c <= '9') || c == '_'
  }

  /** The characters the clean-up keeps: `[\w\s.-]`. */
  predicate Kept(c: char)
  {
    IsWordChar(c) || IsSpace(c) || c == '.' || c == '-'
  }

  /** The characters a cleaned name may hold: the kept ones except the plain space. */
  predicate SafeChar(c: char)
  {
    Kept(c) && c != ' '
  }

  predicate SafeName(s: string)
  {
    forall i :: 0 <= i < |s| ==> SafeChar(s[i])
  }

  /**
   * The clean-up of the original file name: every character outside
   * `[\w\s.-]` is removed, then each space becomes '_'.
   */
  function CleanFilename(s: string): (r: string)
    ensures SafeName(r)
    ensures |r| <= |s|
    ensures SafeName(s) ==> r == s
  {
    if |s| == 0 then ""
    else
      var rest := CleanFilename(s[1..]);
      if s[0] == ' ' then "_" + rest
      else if Kept(s[0]) then [s[0]] + rest
      else rest
  }

  /** Cleaning is idempotent: a cleaned name passes through unchanged. */
  lemma CleanFilenameIdempotent(s: string)
    ensures CleanFilename(CleanFilename(s)) == CleanFilename(s)
  {
  }

  /** Cleaning distributes over concatenation, so it keeps the surviving characters in their order. */
  lemma {:induction false} CleanFilenameConcat(a: string, b: string)
    ensures CleanFilename(a + b) == CleanFilename(a) + CleanFilename(b)
  {
    if |a| == 0 {
      assert a + b == b;
    } else {
      assert (a + b)[0] == a[0];
      assert (a + b)[1..] == a[1..] + b;
      CleanFilenameConcat(a[1..], b);
    }
  }

  /** The object name: the uuid, '_', then the cleaned original name. */
  function UploadName(uuid: string, fileName: string): (r: string)
    ensures StartsWith(r, uuid + "_")
    ensures r[|uuid| + 1..] == CleanFilename(fileName)
  {
    uuid + "_" + CleanFilename(fileName)
  }

  /** The bucket: audio when the lower-cased content type mentions "audio", images otherwise. */
  function Bucket(fileType: string): (r: string)
    ensures r == "audio-files" || r == "image-files"
    ensures r == "audio-files" <==> Contains(Lower(fileType), "audio")
  {
    if Contains(Lower(fileType), "audio") then "audio-files" else "image-files"
  }

  /** The older copy: the original name is used unchanged after the uuid and '_'. */
  function LegacyUploadName(uuid: string, fileName: string): (r: string)
    ensures StartsWith(r, uuid + "_") && r[|uuid| + 1..] == fileName
  {
    uuid + "_" + fileName
  }

  /** The older copy's bucket test is case-sensitive. */
  function LegacyBucket(fileType: string): (r: string)
    ensures r == "audio-files" || r == "image-files"
    ensures r == "audio-files" <==> Contains(fileType, "audio")
  {
    if Contains(fileType, "audio") then "audio-files" else "image-files"
  }

  /** Lower-casing keeps every occurrence of a lower-case word. */
  lemma {:induction false} LowerKeepsOccurrence(s: string, i: int)
    requires OccursAt(s, "audio", i)
    ensures OccursAt(Lower(s), "audio", i)
  {
    var t := Lower(s);
    forall k | 0 <= k < 5 ensures t[i..i + 5][k] == "audio"[k] {
      assert s[i..i + 5][k] == s[i + k];
    }
  }

  /**
   * Every content type the older copy sends to the audio bucket goes there in
   * the current copy too; "AUDIO/MPEG" shows the converse fails.
   */
  lemma BucketExtendsLegacy(fileType: string)
    ensures LegacyBucket(fileType) == "audio-files" ==> Bucket(fileType) == "audio-files"
    ensures LegacyBucket("AUDIO/MPEG") == "image-files" && Bucket("AUDIO/MPEG") == "audio-files"
  {
    if Contains(fileType, "audio") {
      var i :| 0 <= i <= |fileType| && OccursAt(fileType, "audio", i);
      LowerKeepsOccurrence(fileType, i);
    }
    var u := "AUDIO/MPEG";
    assert OccursAt(Lower(u), "audio", 0) by {
      assert Lower(u)[..5] == "audio";
    }
    assert !Contains(u, "audio") by {
      forall i | 0 <= i <= |u| ensures !OccursAt(u, "audio", i) {
        if 0 <= i && i + 5 <= |u| {
          assert u[i..i + 5][0] == u[i];
        }
      }
    }
  }
}
