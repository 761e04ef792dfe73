/** JavaScript string helpers the model needs: `join`, `split` on one character, `startsWith`. */
module Strings {

  /** `parts.join(sep)`. */
  function Join(parts: seq<string>, sep: string): string {
    if |parts| == 0 then ""
    else if |parts| == 1 then parts[0]
    else parts[0] + sep + Join(parts[1..], sep)
  }

  /** `s.split(c)`: the pieces between occurrences of `c`; the empty string splits into one empty piece. */
  function Split(s: string, c: char): (parts: seq<string>)
    ensures |parts| >= 1
  {
    if |s| == 0 then [""]
    else
      var rest := Split(s[1..], c);
      if s[0] == c then [""] + rest else [[s[0]] + rest[0]] + rest[1..]
  }

  predicate StartsWith(s: string, prefix: string) {
    |prefix| <= |s| && s[..|prefix|] == prefix
  }

  /** `t` occurs in `s` at position `i`. */
  predicate OccursAt(s: string, t: string, i: int) {
    0 <= i <= |s| - |t| && s[i..i + |t|] == t
  }

  /** `s.includes(t)`. */
  ghost predicate ContainsSubstring(s: string, t: string) {
    exists i :: OccursAt(s, t, i)
  }

  /** No piece of a split contains the separator, and the pieces joined with it give back `s`. */
  lemma {:induction false} SplitJoin(s: string, c: char)
    ensures forall k :: 0 <= k < |Split(s, c)| ==> c !in Split(s, c)[k]
    ensures Join(Split(s, c), [c]) == s
  {
    if |s| > 0 {
      SplitJoin(s[1..], c);
      var rest := Split(s[1..], c);
      if s[0] == c {
        assert Split(s, c) == [""] + rest;
        JoinCons("", rest, [c]);
        assert s == [c] + s[1..];
      } else {
        var parts := Split(s, c);
        assert parts == [[s[0]] + rest[0]] + rest[1..];
        if |rest| == 1 {
          assert Join(parts, [c]) == [s[0]] + rest[0];
        } else {
          assert Join(rest, [c]) == rest[0] + [c] + Join(rest[1..], [c]);
          assert Join(parts, [c]) == [s[0]] + rest[0] + [c] + Join(rest[1..], [c]);
        }
        assert s == [s[0]] + s[1..];
      }
    }
  }

  lemma JoinCons(p: string, rest: seq<string>, sep: string)
    requires |rest| >= 1
    ensures Join([p] + rest, sep) == p + sep + Join(rest, sep)
  {
    assert ([p] + rest)[1..] == rest;
  }

  /** Joining pieces that do not contain `c` with `c` and splitting again gives the pieces back. */
  lemma {:induction false} JoinSplit(parts: seq<string>, c: char)
    requires |parts| >= 1
    requires forall k :: 0 <= k < |parts| ==> c !in parts[k]
    ensures Split(Join(parts, [c]), c) == parts
  {
    if |parts| == 1 {
      NoSeparator(parts[0], c);
    } else {
      JoinSplit(parts[1..], c);
      SplitAround(parts[0], Join(parts[1..], [c]), c);
      assert parts == [parts[0]] + parts[1..];
    }
  }

  lemma {:induction false} NoSeparator(s: string, c: char)
    requires c !in s
    ensures Split(s, c) == [s]
  {
    if |s| > 0 {
      NoSeparator(s[1..], c);
      assert s == [s[0]] + s[1..];
    }
  }

  /** Splitting `a + [c] + b` where `a` has no `c` gives `a` followed by the pieces of `b`. */
  lemma {:induction false} SplitAround(a: string, b: string, c: char)
    requires c !in a
    ensures Split(a + [c] + b, c) == [a] + Split(b, c)
  {
    if |a| == 0 {
      assert ([c] + b)[1..] == b;
    } else {
      SplitAround(a[1..], b, c);
      var s := a + [c] + b;
      assert s[0] == a[0] && s[0] != c;
      assert s[1..] == a[1..] + [c] + b;
      var rest := Split(s[1..], c);
      assert rest[0] == a[1..] && rest[1..] == Split(b, c);
      assert [a[0]] + a[1..] == a;
    }
  }

  /** A join of `n` pieces with a one-character separator has `n` pieces when split again. */
  lemma JoinLength(parts: seq<string>, c: char)
    requires |parts| >= 1
    requires forall k :: 0 <= k < |parts| ==> c !in parts[k]
    ensures |Split(Join(parts, [c]), c)| == |parts|
  {
    JoinSplit(parts, c);
  }

  /** A join of at least one piece starts with the first piece. */
  lemma JoinStartsWith(parts: seq<string>, sep: string)
    requires |parts| >= 1
    ensures StartsWith(Join(parts, sep), parts[0])
  {
    if |parts| > 1 {
      assert Join(parts, sep) == parts[0] + (sep + Join(parts[1..], sep));
    }
  }

  /**
   * A non-empty `t` without the separator occurs in a join only inside one of the pieces:
   * if no piece contains it, neither does the join.
   */
  lemma {:induction false} JoinAvoids(parts: seq<string>, c: char, t: string)
    requires |t| > 0 && c !in t
    requires forall k :: 0 <= k < |parts| ==> !ContainsSubstring(parts[k], t)
    ensures !ContainsSubstring(Join(parts, [c]), t)
  {
    if |parts| > 1 {
      var head, rest := parts[0], Join(parts[1..], [c]);
      JoinAvoids(parts[1..], c, t);
      var s := head + [c] + rest;
      assert Join(parts, [c]) == s;
      forall i | 0 <= i <= |s| - |t|
        ensures !OccursAt(s, t, i)
      {
        if i + |t| <= |head| {
          assert s[i..i + |t|] == head[i..i + |t|];
          assert !OccursAt(head, t, i);
        } else if i <= |head| {
          assert s[i..i + |t|][|head| - i] == c;
        } else {
          assert s[i..i + |t|] == rest[i - |head| - 1..i - |head| - 1 + |t|];
          assert !OccursAt(rest, t, i - |head| - 1);
        }
      }
    }
  }

  /** Putting a prefix without the first character of `t` in front of `s` creates no new occurrence of `t`. */
  lemma AfterPadding(pad: string, s: string, t: string)
    requires |t| > 0 && t[0] !in pad
    requires !ContainsSubstring(s, t)
    ensures !ContainsSubstring(pad + s, t)
  {
    var p := pad + s;
    forall i | 0 <= i <= |p| - |t|
      ensures !OccursAt(p, t, i)
    {
      if i < |pad| {
        assert p[i..i + |t|][0] == pad[i];
      } else {
        assert p[i..i + |t|] == s[i - |pad|..i - |pad| + |t|];
        assert !OccursAt(s, t, i - |pad|);
      }
    }
  }
}
