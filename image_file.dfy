/**
 * The gate every candidate avatar passes before it becomes the page's
 * selection: a MIME type from a three-entry allow-list, compared after
 * lower-casing, and a size of at most 500 KiB.
 */
module ImageFile {
  import opened Text

  /** The metadata of a browser `File` that the page reads. */
  datatype FileInfo = FileInfo(name: string, size: nat, mimeType: string, lastModified: int)

  /** The accepted MIME types, all in lower case. */
  const AllowedTypes: seq<string> := ["image/jpeg", "image/jpg", "image/png"]

  /** 500 * 1024 bytes. */
  const MaxSize: nat := 500 * 1024

  /** `isValidImageFile`: the lower-cased type is on the allow-list. */
  predicate IsValidImageFile(mimeType: string) {
    ToLower(mimeType) in AllowedTypes
  }

  /** Which of the three paths of `processFile` a file takes; the two
      rejections are the two notices the page shows. */
  datatype Verdict = Accepted | WrongType | TooLarge

  /** A file that passes both checks of `processFile`. */
  predicate Acceptable(f: FileInfo) {
    IsValidImageFile(f.mimeType) && f.size <= MaxSize
  }

  /** The type is checked first, then the size. */
  function Check(f: FileInfo): (v: Verdict)
    ensures v == Accepted <==> Acceptable(f)
    ensures v == WrongType <==> !IsValidImageFile(f.mimeType)
    ensures v == TooLarge <==> IsValidImageFile(f.mimeType) && f.size > 512000
  {
    if !IsValidImageFile(f.mimeType) then WrongType
    else if f.size > MaxSize then TooLarge
    else Accepted
  }

  /** Strings equal up to case have equal lower-case forms. */
  lemma SameIgnoringCaseLower(a: string, b: string)
    requires SameIgnoringCase(a, b)
    ensures ToLower(a) == ToLower(b)
  {
  }

  /** The type check is a case-insensitive comparison against the list:
      a type passes exactly when it equals one of the allowed types up to
      the case of its letters. */
  lemma {:induction false} ValidTypeIffSameIgnoringCase(mimeType: string)
    ensures IsValidImageFile(mimeType) <==>
      exists v :: v in AllowedTypes && SameIgnoringCase(mimeType, v)
  {
    forall v | v in AllowedTypes ensures ToLower(v) == v {
      assert forall i :: 0 <= i < |v| ==> !('A' <= v[i] <= 'Z');
    }
    forall v | v in AllowedTypes && SameIgnoringCase(mimeType, v)
      ensures IsValidImageFile(mimeType)
    {
      SameIgnoringCaseLower(mimeType, v);
    }
    if IsValidImageFile(mimeType) {
      var v := ToLower(mimeType);
      assert SameIgnoringCase(mimeType, v) by {
        forall i | 0 <= i < |v| ensures LowerChar(mimeType[i]) == LowerChar(v[i]) {
          assert ToLower(v)[i] == LowerChar(v[i]);
        }
      }
    }
  }

  /** Upper-case spellings pass, other image types do not. */
  lemma TypeExamples()
    ensures IsValidImageFile("IMAGE/PNG")
    ensures IsValidImageFile("Image/JPG")
    ensures !IsValidImageFile("image/gif")
    ensures !IsValidImageFile("image/png ")
  {
    assert ToLower("IMAGE/PNG") == "image/png";
    assert ToLower("Image/JPG") == "image/jpg";
    assert ToLower("image/gif") == "image/gif";
    assert "image/gif"[6] != "image/jpg"[6];
    assert ToLower("image/png ") == "image/png ";
    assert "image/png "[6] != "image/jpeg"[6];
  }
}
