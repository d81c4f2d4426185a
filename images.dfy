/** The image upload rule: which file names the journal accepts as pictures. */
module Images {
  import opened Text

  /** The accepted extensions, lower case. */
  const AllowedExtensions: set<string> := {"png", "jpg", "jpeg", "gif"}

  /** Position of the last '.', or -1 when there is none. */
  function LastDot(s: string): (k: int)
    ensures -1 <= k < |s|
    ensures k >= 0 ==> s[k] == '.'
    ensures k < 0 ==> '.' !in s
    ensures forall j :: k < j < |s| ==> s[j] != '.'
  {
    if s == [] then -1
    else if s[|s| - 1] == '.' then |s| - 1
    else LastDot(s[..|s| - 1])
  }

  /** `filename.rsplit(".", 1)[1].lower()`: the text after the last dot, in lower case. */
  function Extension(filename: string): string
    requires '.' in filename
  {
    Lower(filename[LastDot(filename) + 1..])
  }

  /** `k` is the position of the last dot of `s`. */
  predicate IsLastDot(s: string, k: int) {
    0 <= k < |s| && s[k] == '.' && forall j :: k < j < |s| ==> s[j] != '.'
  }

  lemma LastDotUnique(s: string, k: int)
    requires IsLastDot(s, k)
    ensures LastDot(s) == k
  {
  }

  /**
   * `allowed_file(filename)`: true exactly when the name has a dot and the
   * text after its last dot is, ignoring case, png, jpg, jpeg or gif.
   */
  function AllowedFile(filename: string): (r: bool)
    ensures r <==> exists k :: IsLastDot(filename, k) && Lower(filename[k + 1..]) in AllowedExtensions
  {
    if '.' !in filename then false
    else
      assert IsLastDot(filename, LastDot(filename));
      assert forall k :: IsLastDot(filename, k) ==> k == LastDot(filename) by {
        forall k | IsLastDot(filename, k) ensures k == LastDot(filename) {
          LastDotUnique(filename, k);
        }
      }
      Extension(filename) in AllowedExtensions
  }

  /** Lower-casing keeps every dot and makes none. */
  lemma SameDots(s: string)
    ensures forall i :: 0 <= i < |s| ==> (Lower(s)[i] == '.' <==> s[i] == '.')
  {
  }

  lemma LastDotLower(s: string)
    ensures LastDot(Lower(s)) == LastDot(s)
  {
    var low := Lower(s);
    SameDots(s);
    var k := LastDot(s);
    if k >= 0 {
      assert IsLastDot(low, k);
      LastDotUnique(low, k);
    } else {
      assert '.' !in low by {
        forall i | 0 <= i < |low| ensures low[i] != '.' {
          assert s[i] != '.';
        }
      }
    }
  }

  lemma ExtensionLower(s: string)
    requires '.' in s
    ensures '.' in Lower(s) && Extension(Lower(s)) == Extension(s)
  {
    var low := Lower(s);
    var k := LastDot(s);
    LastDotLower(s);
    assert low[k] == '.';
    var tail := s[k + 1..];
    LowerSuffix(s, k + 1);
    assert Extension(low) == Lower(Lower(tail));
    LowerIdempotent(tail);
  }

  lemma LowerSuffix(s: string, i: nat)
    requires i <= |s|
    ensures Lower(s)[i..] == Lower(s[i..])
  {
  }

  /** Case does not matter: a name is accepted exactly when its lower-case form is. */
  lemma AllowedFileIgnoresCase(filename: string)
    ensures AllowedFile(Lower(filename)) == AllowedFile(filename)
  {
    if '.' in filename {
      ExtensionLower(filename);
    } else {
      LastDotLower(filename);
      assert LastDot(Lower(filename)) < 0;
    }
  }
}
