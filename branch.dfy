/**
 * `BranchManager`: branch names made of a fixed prefix and a sanitised task id, and the
 * prefix test that recognises them.
 */
module Branch {
  import opened Wrappers
  import opened Strings

  const DefaultPrefix: string := "feature/ai-"

  /** The characters `[a-z0-9]`. */
  predicate IsAlnum(c: char) {
    'a' <= c <= 'z' || '0' <= c <= '9'
  }

  /** ASCII lower-casing; every other character is left as it is. */
  function Lower(c: char): char {
    if 'A' <= c <= 'Z' then (c as int + 32) as char else c
  }

  /** `toLowerCase()` followed by `replace(/[^a-z0-9]/g, '-')`, one character at a time. */
  function MaskChar(c: char): char {
    if IsAlnum(Lower(c)) then Lower(c) else '-'
  }

  function Mask(s: string): string {
    if |s| == 0 then [] else [MaskChar(s[0])] + Mask(s[1..])
  }

  /** `replace(/-+/g, '-')`: every run of hyphens becomes a single one. */
  function Collapse(s: string): string {
    if |s| <= 1 then s
    else if s[0] == '-' && s[1] == '-' then Collapse(s[1..])
    else [s[0]] + Collapse(s[1..])
  }

  /** `replace(/^-|-$/g, '')`: one hyphen goes from the front and one from the end. */
  function TrimDash(s: string): string {
    var a := if |s| > 0 && s[0] == '-' then s[1..] else s;
    if |a| > 0 && a[|a| - 1] == '-' then a[..|a| - 1] else a
  }

  /** The id lower-cased, with anything outside `[a-z0-9]` turned into hyphens, runs of them merged and the ends trimmed. */
  function Sanitize(id: string): (r: string)
    ensures |r| <= |id|
    ensures forall c :: c in r ==> IsAlnum(c) || c == '-'
  {
    MaskChars(id);
    CollapseFacts(Mask(id));
    var masked := Mask(id);
    assert forall c :: c in masked ==> IsAlnum(c) || c == '-';
    var r := TrimDash(Collapse(masked));
    assert forall c :: c in r ==> c in Collapse(masked);
    r
  }

  /** Only `[a-z0-9-]`, no two hyphens in a row, and no hyphen at either end. */
  ghost predicate Clean(s: string) {
    && (forall k :: 0 <= k < |s| ==> IsAlnum(s[k]) || s[k] == '-')
    && NoDoubleDash(s)
    && (|s| > 0 ==> s[0] != '-' && s[|s| - 1] != '-')
  }

  ghost predicate NoDoubleDash(s: string) {
    forall k :: 0 <= k < |s| - 1 ==> !(s[k] == '-' && s[k + 1] == '-')
  }

  /**
   * A branch manager with its prefix fixed at construction.
   */
  datatype BranchManager = BranchManager(prefix: string) {
    /** `generateName`: the prefix followed by the sanitised id. */
    function GenerateName(id: string): (name: string)
      ensures StartsWith(name, prefix)
      ensures Clean(name[|prefix|..])
    {
      SanitizeClean(id);
      assert (prefix + Sanitize(id))[|prefix|..] == Sanitize(id);
      prefix + Sanitize(id)
    }

    /** `isAIBranch`: the name is the prefix followed by something. */
    predicate IsAIBranch(branchName: string)
      ensures IsAIBranch(branchName) <==> |prefix| <= |branchName| && branchName == prefix + branchName[|prefix|..]
    {
      assert |prefix| <= |branchName| ==> branchName == branchName[..|prefix|] + branchName[|prefix|..];
      StartsWith(branchName, prefix)
    }
  }

  /** The constructor: the given prefix, or the default one when it is missing or empty. */
  function NewBranchManager(prefix: Option<string>): (m: BranchManager)
    ensures m.prefix != ""
    ensures prefix.Some? && prefix.value != "" ==> m.prefix == prefix.value
    ensures prefix == None || prefix == Some("") ==> m.prefix == DefaultPrefix
  {
    BranchManager(if prefix.None? || prefix.value == "" then DefaultPrefix else prefix.value)
  }

  // ----- Properties -----

  /** The non-hyphen characters of `s`, in order. */
  function Dehyphen(s: string): string {
    if |s| == 0 then [] else (if s[0] == '-' then [] else [s[0]]) + Dehyphen(s[1..])
  }

  /** The lower-cased ASCII letters and digits of `id`, in order. */
  function Alnums(id: string): string {
    if |id| == 0 then [] else (if IsAlnum(Lower(id[0])) then [Lower(id[0])] else []) + Alnums(id[1..])
  }

  lemma {:induction false} MaskChars(s: string)
    ensures |Mask(s)| == |s|
    ensures forall k :: 0 <= k < |Mask(s)| ==> IsAlnum(Mask(s)[k]) || Mask(s)[k] == '-'
  {
    if |s| > 0 {
      MaskChars(s[1..]);
    }
  }

  lemma {:induction false} CollapseFacts(s: string)
    ensures |Collapse(s)| <= |s|
    ensures forall c :: c in Collapse(s) ==> c in s
    ensures NoDoubleDash(Collapse(s))
    ensures |s| > 0 ==> |Collapse(s)| > 0 && Collapse(s)[0] == s[0] && Collapse(s)[|Collapse(s)| - 1] == s[|s| - 1]
  {
    if |s| > 1 {
      CollapseFacts(s[1..]);
      var r := Collapse(s[1..]);
      if !(s[0] == '-' && s[1] == '-') {
        var t := [s[0]] + r;
        forall k | 0 <= k < |t| - 1
          ensures !(t[k] == '-' && t[k + 1] == '-')
        {
          if k > 0 {
            assert t[k] == r[k - 1] && t[k + 1] == r[k];
          }
        }
      }
    }
  }

  lemma TrimClean(s: string)
    requires forall k :: 0 <= k < |s| ==> IsAlnum(s[k]) || s[k] == '-'
    requires NoDoubleDash(s)
    ensures Clean(TrimDash(s))
  {
    var a := if |s| > 0 && s[0] == '-' then s[1..] else s;
    TrimFront(s);
    TrimBack(a);
  }

  /** Dropping a leading hyphen leaves a string that does not start with one. */
  lemma TrimFront(s: string)
    requires forall k :: 0 <= k < |s| ==> IsAlnum(s[k]) || s[k] == '-'
    requires NoDoubleDash(s)
    ensures var a := if |s| > 0 && s[0] == '-' then s[1..] else s;
            && (forall k :: 0 <= k < |a| ==> IsAlnum(a[k]) || a[k] == '-')
            && NoDoubleDash(a)
            && (|a| > 0 ==> a[0] != '-')
  {
    if |s| > 0 && s[0] == '-' {
      var a := s[1..];
      forall k | 0 <= k < |a|
        ensures a[k] == s[k + 1]
      {
      }
      if |a| > 0 {
        assert !(s[0] == '-' && s[1] == '-');
      }
    }
  }

  /** Dropping a trailing hyphen from a string that does not start with one leaves it clean. */
  lemma TrimBack(a: string)
    requires forall k :: 0 <= k < |a| ==> IsAlnum(a[k]) || a[k] == '-'
    requires NoDoubleDash(a)
    requires |a| > 0 ==> a[0] != '-'
    ensures Clean(if |a| > 0 && a[|a| - 1] == '-' then a[..|a| - 1] else a)
  {
    if |a| > 0 && a[|a| - 1] == '-' {
      var b := a[..|a| - 1];
      forall k | 0 <= k < |b|
        ensures b[k] == a[k]
      {
      }
      if |b| > 0 {
        assert b[|b| - 1] == a[|a| - 2];
      }
    }
  }

  /** A sanitised id uses only `[a-z0-9-]`, has no `--` and no hyphen at either end. */
  lemma SanitizeClean(id: string)
    ensures Clean(Sanitize(id))
  {
    MaskChars(id);
    CollapseFacts(Mask(id));
    var c := Collapse(Mask(id));
    forall k | 0 <= k < |c|
      ensures IsAlnum(c[k]) || c[k] == '-'
    {
      assert c[k] in Mask(id);
    }
    TrimClean(c);
  }

  lemma {:induction false} DehyphenAppend(a: string, b: string)
    ensures Dehyphen(a + b) == Dehyphen(a) + Dehyphen(b)
  {
    if |a| > 0 {
      var head := if a[0] == '-' then [] else [a[0]];
      assert (a + b)[0] == a[0] && (a + b)[1..] == a[1..] + b;
      assert Dehyphen(a + b) == head + Dehyphen(a[1..] + b);
      DehyphenAppend(a[1..], b);
      assert Dehyphen(a) == head + Dehyphen(a[1..]);
    } else {
      assert a + b == b;
    }
  }

  lemma {:induction false} MaskKeeps(id: string)
    ensures Dehyphen(Mask(id)) == Alnums(id)
  {
    if |id| > 0 {
      MaskKeeps(id[1..]);
    }
  }

  lemma {:induction false} CollapseKeeps(s: string)
    ensures Dehyphen(Collapse(s)) == Dehyphen(s)
  {
    if |s| > 1 {
      CollapseKeeps(s[1..]);
      if !(s[0] == '-' && s[1] == '-') {
        DehyphenAppend([s[0]], Collapse(s[1..]));
      }
    }
  }

  lemma TrimKeeps(s: string)
    ensures Dehyphen(TrimDash(s)) == Dehyphen(s)
  {
    var a := if |s| > 0 && s[0] == '-' then s[1..] else s;
    assert Dehyphen(a) == Dehyphen(s) by {
      if |s| > 0 && s[0] == '-' {
        assert s == "-" + a;
        DehyphenAppend("-", a);
      }
    }
    var b := TrimDash(s);
    if |a| > 0 && a[|a| - 1] == '-' {
      assert a == b + "-";
      DehyphenAppend(b, "-");
    } else {
      assert b == a;
    }
  }

  /** Taking the hyphens out of a sanitised id leaves exactly the id's lower-cased letters and digits. */
  lemma SanitizeKeepsAlnums(id: string)
    ensures Dehyphen(Sanitize(id)) == Alnums(id)
  {
    MaskKeeps(id);
    CollapseKeeps(Mask(id));
    TrimKeeps(Collapse(Mask(id)));
  }

  /** Every step leaves a clean string as it is. */
  lemma {:induction false} MaskFixed(s: string)
    requires forall k :: 0 <= k < |s| ==> IsAlnum(s[k]) || s[k] == '-'
    ensures Mask(s) == s
  {
    if |s| > 0 {
      MaskFixed(s[1..]);
      assert s == [s[0]] + s[1..];
    }
  }

  lemma {:induction false} CollapseFixed(s: string)
    requires NoDoubleDash(s)
    ensures Collapse(s) == s
  {
    if |s| > 1 {
      assert NoDoubleDash(s[1..]) by {
        forall k | 0 <= k < |s[1..]| - 1
          ensures !(s[1..][k] == '-' && s[1..][k + 1] == '-')
        {
          assert s[1..][k] == s[k + 1] && s[1..][k + 1] == s[k + 2];
        }
      }
      CollapseFixed(s[1..]);
      assert !(s[0] == '-' && s[1] == '-');
      assert s == [s[0]] + s[1..];
    }
  }

  /** Sanitising is idempotent. */
  lemma SanitizeIdempotent(id: string)
    ensures Sanitize(Sanitize(id)) == Sanitize(id)
  {
    var s := Sanitize(id);
    SanitizeClean(id);
    MaskFixed(s);
    CollapseFixed(s);
  }

  /** Every generated name is recognised as an AI branch. */
  lemma GeneratedIsAIBranch(m: BranchManager, id: string)
    ensures m.IsAIBranch(m.GenerateName(id))
  {
  }

  /** A name is recognised exactly when it is the prefix followed by something. */
  lemma AIBranchIff(m: BranchManager, branchName: string)
    ensures m.IsAIBranch(branchName) <==> exists rest :: branchName == m.prefix + rest
  {
    if m.IsAIBranch(branchName) {
      assert branchName == m.prefix + branchName[|m.prefix|..];
    }
  }

  lemma {:induction false} MaskAppend(a: string, b: string)
    ensures Mask(a + b) == Mask(a) + Mask(b)
  {
    if |a| > 0 {
      MaskAppend(a[1..], b);
      assert (a + b)[1..] == a[1..] + b;
    } else {
      assert a + b == b;
    }
  }

  /** Runs of hyphens do not reach across a seam that is not hyphen on both sides. */
  lemma {:induction false} CollapseAppend(a: string, b: string)
    requires |a| > 0 && |b| > 0 && !(a[|a| - 1] == '-' && b[0] == '-')
    ensures Collapse(a + b) == Collapse(a) + Collapse(b)
  {
    if |a| == 1 {
      assert (a + b)[1..] == b;
    } else {
      CollapseAppend(a[1..], b);
      assert (a + b)[1..] == a[1..] + b;
    }
  }

  lemma {:induction false} MaskAt(s: string)
    ensures |Mask(s)| == |s|
    ensures forall k :: 0 <= k < |s| ==> Mask(s)[k] == MaskChar(s[k])
  {
    if |s| > 0 {
      MaskAt(s[1..]);
    }
  }

  /** `Mask(s) == r`, checked character by character. */
  lemma MaskIs(s: string, r: string)
    requires |s| == |r| && forall k :: 0 <= k < |s| ==> MaskChar(s[k]) == r[k]
    ensures Mask(s) == r
  {
    MaskAt(s);
  }

  lemma NoDoubleDashFixed(s: string)
    requires forall k :: 0 <= k < |s| - 1 ==> s[k] != '-' || s[k + 1] != '-'
    ensures Collapse(s) == s
  {
    CollapseFixed(s);
  }

  /** The default prefix and three sample ids. */
  lemma ExamplePlain()
    ensures NewBranchManager(None).GenerateName("PR-04") == "feature/ai-pr-04"
  {
    SanitizedPlain();
    GeneratedIs(NewBranchManager(None), "PR-04", "pr-04");
    PrefixedPlain();
  }

  lemma PrefixedPlain()
    ensures DefaultPrefix + "pr-04" == "feature/ai-pr-04"
  {
  }

  lemma SanitizedPlain()
    ensures Sanitize("PR-04") == "pr-04"
  {
    assert MaskChar('P') == 'p' && MaskChar('R') == 'r';
    MaskIs("PR-04", "pr-04");
    NoDoubleDashFixed("pr-04");
  }

  /** A name generated from an id whose sanitised form is known. */
  lemma GeneratedIs(m: BranchManager, id: string, sanitized: string)
    requires Sanitize(id) == sanitized
    ensures m.GenerateName(id) == m.prefix + sanitized
  {
  }

  lemma ExampleCustomPrefix()
    ensures NewBranchManager(Some("fix/")).GenerateName("bug-fix") == "fix/bug-fix"
  {
    SanitizedBugFix();
    GeneratedIs(NewBranchManager(Some("fix/")), "bug-fix", "bug-fix");
    PrefixedBugFix();
  }

  lemma PrefixedBugFix()
    ensures "fix/" + "bug-fix" == "fix/bug-fix"
  {
  }

  lemma SanitizedBugFix()
    ensures Sanitize("bug-fix") == "bug-fix"
  {
    MaskIs("bug-fix", "bug-fix");
    NoDoubleDashFixed("bug-fix");
    assert TrimDash("bug-fix") == "bug-fix";
  }

  lemma ExampleSanitized(id: string)
    requires id == "Task #123: complex_title! "
    ensures NewBranchManager(None).GenerateName(id) == "feature/ai-task-123-complex-title"
  {
    SanitizedSample(id);
    PrefixedSample();
  }

  lemma PrefixedSample()
    ensures DefaultPrefix + "task-123-complex-title" == "feature/ai-task-123-complex-title"
  {
  }

  lemma SanitizedSample(id: string)
    requires id == "Task #123: complex_title! "
    ensures Sanitize(id) == "task-123-complex-title"
  {
    IdJoined();
    Pieces(id, "Task #", "123: ", "complex_", "title! ");
    Mask4(id[..6], id[6..11], id[11..19], id[19..]);
    MaskedPieces();
    MaskedJoined();
    CollapsedSample(Mask(id));
    TrimmedSample();
  }

  lemma Mask4(a: string, b: string, c: string, d: string)
    ensures Mask(a + b + c + d) == Mask(a) + Mask(b) + Mask(c) + Mask(d)
  {
    MaskAppend(a, b);
    MaskAppend(a + b, c);
    MaskAppend(a + b + c, d);
  }

  /** A string spelled as four pieces is cut back into them at their lengths. */
  lemma Pieces(s: string, a: string, b: string, c: string, d: string)
    requires s == a + b + c + d
    ensures s == s[..|a|] + s[|a|..|a| + |b|] + s[|a| + |b|..|a| + |b| + |c|] + s[|a| + |b| + |c|..]
    ensures s[..|a|] == a && s[|a|..|a| + |b|] == b && s[|a| + |b|..|a| + |b| + |c|] == c && s[|a| + |b| + |c|..] == d
  {
  }

  lemma MaskedPieces()
    ensures Mask("Task #") == "task--" && Mask("123: ") == "123--"
    ensures Mask("complex_") == "complex-" && Mask("title! ") == "title--"
  {
    MaskedFront();
    MaskedBack();
  }

  lemma MaskedFront()
    ensures Mask("Task #") == "task--" && Mask("123: ") == "123--"
  {
    assert MaskChar('T') == 't';
    MaskIs("Task #", "task--");
    MaskIs("123: ", "123--");
  }

  lemma MaskedBack()
    ensures Mask("complex_") == "complex-" && Mask("title! ") == "title--"
  {
    MaskIs("complex_", "complex-");
    MaskIs("title! ", "title--");
  }

  lemma IdJoined()
    ensures "Task #" + "123: " + "complex_" + "title! " == "Task #123: complex_title! "
  {
  }

  lemma MaskedJoined()
    ensures "task--" + "123--" + "complex-" + "title--" == "task--123--complex-title--"
  {
  }

  lemma TrimmedSample()
    ensures TrimDash("task-123-complex-title-") == "task-123-complex-title"
  {
  }

  /** The sample's masked form is collapsed piece by piece. */
  lemma CollapsedSample(s: string)
    requires s == "task--123--complex-title--"
    ensures Collapse(s) == "task-123-complex-title-"
  {
    MaskedJoined();
    Pieces(s, "task--", "123--", "complex-", "title--");
    ChunkTask();
    Chunk123();
    ChunkComplex();
    ChunkTitle();
    Collapse4(s[..6], s[6..11], s[11..19], s[19..]);
    SampleJoined();
  }

  lemma SampleJoined()
    ensures "task-" + "123-" + "complex-" + "title-" == "task-123-complex-title-"
  {
  }

  lemma Collapse4(a: string, b: string, c: string, d: string)
    requires |a| > 0 && |b| > 0 && |c| > 0 && |d| > 0
    requires b[0] != '-' && c[0] != '-' && d[0] != '-'
    ensures Collapse(a + b + c + d) == Collapse(a) + Collapse(b) + Collapse(c) + Collapse(d)
  {
    CollapseAppend(a, b);
    CollapseAppend(a + b, c);
    CollapseAppend(a + b + c, d);
  }

  lemma ChunkTask() ensures Collapse("task--") == "task-" {}
  lemma Chunk123() ensures Collapse("123--") == "123-" {}
  lemma ChunkComplex() ensures Collapse("complex-") == "complex-" {
    var s := "complex-";
    assert NoDoubleDash(s) by {
      forall k | 0 <= k < |s| - 1
        ensures s[k] != '-'
      {
      }
    }
    CollapseFixed(s);
  }
  lemma ChunkTitle() ensures Collapse("title--") == "title-" {}

  lemma ExampleRecognised()
    ensures NewBranchManager(None).IsAIBranch("feature/ai-test")
    ensures !NewBranchManager(None).IsAIBranch("main") && !NewBranchManager(None).IsAIBranch("feature/other")
  {
    assert "feature/ai-test"[..|DefaultPrefix|] == DefaultPrefix;
    assert "feature/other"[10] != DefaultPrefix[10];
  }
}
