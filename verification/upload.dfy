/**
 The decision the upload handler takes before any byte is read: the file's
 extension must be on the allow-list (compared case-insensitively), and only
 then is its size compared with the 50 MiB limit. An accepted file is
 analysed: its entropy, the bucket of that entropy, and its window profile.

 The extension and the size are inputs here; finding them from the path and
 the file system, and reading the file, happen outside the model.
 */
module Upload {
  import opened Frequency
  import opened Entropy
  import opened Classification
  import opened Profile
  import opened Windowing

  /** The extensions the tool accepts, in lower case, with their dot. */
  const AllowedExtensions: set<string> := {".txt", ".bin", ".dat", ".jpg", ".png"}

  /** The size limit: 50 MiB. A file of exactly this size is still accepted. */
  const MaxFileSize: nat := 50 * 1024 * 1024

  /** What the validation decides. */
  datatype Verdict = UnsupportedType | TooLarge | Accepted

  /** Lower-cases an ASCII capital letter and leaves every other character alone. */
  function LowerChar(c: char): (r: char)
    ensures 'A' <= c <= 'Z' ==> 'a' <= r <= 'z'
    ensures !('A' <= c <= 'Z') ==> r == c
  {
    if 'A' <= c <= 'Z' then (c as int + 32) as char else c
  }

  /** `str.lower()` on the extension, character by character. */
  function Lower(s: string): (r: string)
    ensures |r| == |s|
    ensures forall i :: 0 <= i < |s| ==> r[i] == LowerChar(s[i])
  {
    if s == [] then [] else [LowerChar(s[0])] + Lower(s[1..])
  }

  /** Whether the extension is on the allow-list once lower-cased. */
  predicate IsAllowed(ext: string)
  {
    Lower(ext) in AllowedExtensions
  }

  /** The handler's two checks, extension first, then size. */
  function Validate(ext: string, size: nat): (v: Verdict)
    ensures v == UnsupportedType <==> !IsAllowed(ext)
    ensures v == TooLarge <==> IsAllowed(ext) && size > MaxFileSize
    ensures v == Accepted <==> IsAllowed(ext) && size <= MaxFileSize
  {
    if !IsAllowed(ext) then UnsupportedType
    else if size > MaxFileSize then TooLarge
    else Accepted
  }

  /** The text shown for a rejected file. */
  function RejectionMessage(v: Verdict): string
    requires v != Accepted
  {
    match v
    case UnsupportedType => "Unsupported file type."
    case TooLarge => "File is too large. Max 50 MB allowed."
  }

  /** What the handler ends with: a rejection text, or the analysis of the file's bytes. */
  datatype Outcome =
    | Rejected(message: string)
    | Analysed(entropy: real, strength: Strength, profile: seq<real>)

  /**
   The whole handler for a file whose extension, size and contents are given:
   validation first, and only for an accepted file the entropy, its bucket
   and the window profile.
   */
  function HandleUpload(ext: string, size: nat, data: seq<byte>, log2: real -> real): (o: Outcome)
    ensures o.Rejected? <==> Validate(ext, size) != Accepted
    ensures o.Rejected? ==> o.message == RejectionMessage(Validate(ext, size))
    ensures o.Analysed? ==> o.entropy == GlobalEntropy(data, log2)
    ensures o.Analysed? ==> o.strength == Classify(o.entropy)
    ensures o.Analysed? ==> o.profile == EntropyProfile(data, log2)
    ensures o.Analysed? ==> |o.profile| == WindowCount(|data|, WindowSize)
  {
    var v := Validate(ext, size);
    if v != Accepted then Rejected(RejectionMessage(v))
    else
      var entropy := GlobalEntropy(data, log2);
      WindowsLength(data, WindowSize);
      Analysed(entropy, Classify(entropy), EntropyProfile(data, log2))
  }

  /** Lower-casing twice is lower-casing once. */
  lemma LowerIdempotent(s: string)
    ensures Lower(Lower(s)) == Lower(s)
  {
  }

  /** The extension check ignores case: an extension and its lower-cased form get the same verdict. */
  lemma ValidateIgnoresCase(ext: string, size: nat)
    ensures Validate(ext, size) == Validate(Lower(ext), size)
  {
    LowerIdempotent(ext);
  }

  /** An extension off the allow-list is refused whatever the size, so the size is never consulted. */
  lemma ExtensionCheckedFirst(ext: string, size1: nat, size2: nat)
    requires !IsAllowed(ext)
    ensures Validate(ext, size1) == Validate(ext, size2) == UnsupportedType
  {
  }

  /** An allowed extension of exactly 50 MiB is accepted; one byte more is too large. */
  lemma SizeLimitIsInclusive(ext: string)
    requires IsAllowed(ext)
    ensures Validate(ext, 52428800) == Accepted
    ensures Validate(ext, 52428801) == TooLarge
  {
  }

  /** Shrinking an accepted file keeps it accepted. */
  lemma AcceptedDownwardClosed(ext: string, size: nat, smaller: nat)
    requires Validate(ext, size) == Accepted && smaller <= size
    ensures Validate(ext, smaller) == Accepted
  {
  }

  /** Upper-case and mixed-case spellings of an allowed extension pass. */
  lemma MixedCaseAccepted()
    ensures Validate(".TXT", 0) == Accepted
    ensures Validate(".Png", MaxFileSize) == Accepted
    ensures Validate(".exe", 0) == UnsupportedType
  {
    assert Lower(".TXT") == ".txt";
    assert Lower(".Png") == ".png";
  }

  /** Every accepted extension is a dot and three characters. */
  lemma AllowedShape(ext: string)
    requires IsAllowed(ext)
    ensures |ext| == 4 && ext[0] == '.'
  {
    assert |Lower(ext)| == 4;
    assert Lower(ext)[0] == '.';
  }

  /** A rejected file's outcome does not depend on its contents: nothing is read before validation passes. */
  lemma RejectionIgnoresContents(ext: string, size: nat, d1: seq<byte>, d2: seq<byte>, log2: real -> real)
    requires Validate(ext, size) != Accepted
    ensures HandleUpload(ext, size, d1, log2) == HandleUpload(ext, size, d2, log2)
  {
  }

  /** The two rejections show their fixed texts: the type check's first, the size check's only for an allowed type. */
  lemma RejectionTexts(ext: string, size: nat, data: seq<byte>, log2: real -> real)
    ensures !IsAllowed(ext) ==> HandleUpload(ext, size, data, log2) == Rejected("Unsupported file type.")
    ensures IsAllowed(ext) && size > MaxFileSize ==>
      HandleUpload(ext, size, data, log2) == Rejected("File is too large. Max 50 MB allowed.")
  {
  }
}
