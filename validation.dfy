/** The check applied to a comma-separated name list before it is split:
    does a comma start an entry made only of blanks? The source asks the
    regular expression `,[ \t]+,|,[ \t]+$` to find a match anywhere in the
    string, so a blank first entry, which no comma precedes, is not flagged. */
module Validation {

  predicate IsBlank(c: char) {
    c == ' ' || c == '\t'
  }

  /** What may follow the blank run for the pattern to match: another comma,
      or the end of the string, where the end also allows one trailing
      newline (Python's `$` matches just before a final newline). */
  predicate ClosesEntry(s: string, e: nat)
    requires e <= |s|
  {
    e == |s| || s[e] == ',' || (e == |s| - 1 && s[e] == '\n')
  }

  /** A match of the pattern: a comma at `i`, blanks at every position
      strictly between `i` and `j`, at least one of them, and a closing
      comma or end of string at `j`. */
  ghost predicate BlankEntryAt(s: string, i: int, j: int) {
    && 0 <= i && i + 1 < j <= |s|
    && s[i] == ','
    && (forall k | i < k < j :: IsBlank(s[k]))
    && ClosesEntry(s, j)
  }

  /** The end of the run of blanks that starts at `k`. */
  function RunEnd(s: string, k: nat): (e: nat)
    requires k <= |s|
    ensures k <= e <= |s|
    ensures forall i | k <= i < e :: IsBlank(s[i])
    ensures e < |s| ==> !IsBlank(s[e])
    decreases |s| - k
  {
    if k < |s| && IsBlank(s[k]) then RunEnd(s, k + 1) else k
  }

  /** Scans for a comma from position `i` on whose blank run closes an entry. */
  function ScanFrom(s: string, i: nat): (found: bool)
    requires i <= |s|
    ensures found <==> exists a, b :: i <= a && BlankEntryAt(s, a, b)
    decreases |s| - i
  {
    if i == |s| then false
    else
      var e := RunEnd(s, i + 1);
      var here := s[i] == ',' && i + 1 < e && ClosesEntry(s, e);
      assert here ==> BlankEntryAt(s, i, e);
      assert forall b | BlankEntryAt(s, i, b) :: here by {
        forall b | BlankEntryAt(s, i, b) ensures here {
          assert e >= b;
          assert e <= b;
        }
      }
      here || ScanFrom(s, i + 1)
  }

  /** `chk_is_whitespace`: true exactly when the pattern matches somewhere. */
  function ChkIsWhitespace(name: string): (r: bool)
    ensures r <==> exists i, j :: BlankEntryAt(name, i, j)
  {
    ScanFrom(name, 0)
  }
}
