/** `DiffParser`: the raw diff passes through, and is fenced for a model prompt. */
module Diff {
  import opened Strings

  const NoChanges: string := "No changes."
  const Opening: string := "```diff\n"
  const Closing: string := "\n```"

  /** `parseRawDiff` hands the raw text on unchanged. */
  function ParseRawDiff(raw: string): (r: string)
    ensures r == raw
  {
    raw
  }

  /** `formatForLLM`: "No changes." for an empty diff, otherwise the diff in a `diff` code fence. */
  function FormatForLLM(diff: string): (r: string)
    ensures diff == "" ==> r == NoChanges
    ensures diff != "" ==> StartsWith(r, Opening) && |r| == |Opening| + |diff| + |Closing|
                           && r[|Opening|..|Opening| + |diff|] == diff && r[|Opening| + |diff|..] == Closing
  {
    if diff == "" then NoChanges else Opening + diff + Closing
  }

  /** Reads the diff back out of a formatted text. */
  function Unfence(text: string): string {
    if text == NoChanges || |text| < |Opening| + |Closing| then ""
    else text[|Opening|..|text| - |Closing|]
  }

  // ----- Properties -----

  /** Formatting loses nothing: the diff can be read back from the formatted text. */
  lemma UnfenceFormatted(diff: string)
    ensures Unfence(FormatForLLM(diff)) == diff
  {
    if diff != "" {
      var r := FormatForLLM(diff);
      assert r[0] == '`' && NoChanges[0] == 'N';
    }
  }

  /** Different diffs are formatted differently. */
  lemma FormatInjective(a: string, b: string)
    requires FormatForLLM(a) == FormatForLLM(b)
    ensures a == b
  {
    UnfenceFormatted(a);
    UnfenceFormatted(b);
  }

  /** A non-empty diff appears in its formatted text, which contains the fence marker. */
  lemma FormattedContains(diff: string)
    requires diff != ""
    ensures ContainsSubstring(FormatForLLM(diff), diff)
    ensures ContainsSubstring(FormatForLLM(diff), "```diff")
  {
    var r := FormatForLLM(diff);
    assert OccursAt(r, diff, |Opening|);
    assert r[0..7] == Opening[..7] == "```diff";
    assert OccursAt(r, "```diff", 0);
  }
}
