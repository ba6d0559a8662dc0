/** Ordinal search, replacement, splitting and joining of strings, with the
    semantics of .NET's String.IndexOf with ordinal comparison,
    String.Contains, String.Replace, String.Split and String.Join on string
    arguments.

    `Replace` is the operation the editor's templating is built from.  Its
    partner is the pair `Split`/`Join`: replacing `pat` by `rep` is the same as
    splitting at `pat` and joining the pieces with `rep` (`ReplaceViaSplit`),
    and joining the pieces with `pat` itself gives the input back
    (`SplitJoin`). */
module Text {
  import opened Results

  /** `pat` occurs in `s` starting at position `i`. */
  predicate OccursAt(s: string, pat: string, i: int) {
    0 <= i && i + |pat| <= |s| && s[i..i + |pat|] == pat
  }

  /** No occurrence of `pat` in `s` starts before position `n`. */
  predicate NoneBefore(s: string, pat: string, n: int) {
    forall j :: 0 <= j < n ==> !OccursAt(s, pat, j)
  }

  /** No occurrence of `pat` in `a + b` starts inside `a` and ends inside `b`:
      searching `a + b` finds nothing that searching `a` and `b` apart misses. */
  predicate Separated(a: string, b: string, pat: string) {
    forall j :: 0 <= j < |a| < j + |pat| ==> !OccursAt(a + b, pat, j)
  }

  /** Dropping the first `k` characters shifts every occurrence `k` places left. */
  lemma OccursAtDrop(s: string, pat: string, k: nat)
    requires k <= |s|
    ensures forall j :: OccursAt(s[k..], pat, j) ==> OccursAt(s, pat, j + k)
    ensures forall j :: k <= j && OccursAt(s, pat, j) ==> OccursAt(s[k..], pat, j - k)
  {
    forall j | OccursAt(s[k..], pat, j)
      ensures OccursAt(s, pat, j + k)
    {
      assert s[k..][j..j + |pat|] == s[j + k..j + k + |pat|];
    }
    forall j | k <= j && OccursAt(s, pat, j)
      ensures OccursAt(s[k..], pat, j - k)
    {
      assert s[k..][j - k..j - k + |pat|] == s[j..j + |pat|];
    }
  }

  /** The position of the leftmost occurrence of `pat` in `s`, if any
      (String.IndexOf with ordinal comparison). */
  function IndexOf(s: string, pat: string): (r: Option<nat>)
    ensures r.Some? ==> OccursAt(s, pat, r.value) && NoneBefore(s, pat, r.value)
    ensures r.None? ==> NoneBefore(s, pat, |s| + 1)
    decreases |s|
  {
    if |s| < |pat| then None
    else if s[..|pat|] == pat then Some(0)
    else
      OccursAtDrop(s, pat, 1);
      match IndexOf(s[1..], pat)
      case None => None
      case Some(i) => Some(i + 1)
  }

  /** `pat` occurs somewhere in `s` (String.Contains). */
  predicate Contains(s: string, pat: string) {
    IndexOf(s, pat).Some?
  }

  /** `Contains` holds exactly when there is an occurrence. */
  lemma ContainsOccurrence(s: string, pat: string)
    ensures Contains(s, pat) <==> exists i :: OccursAt(s, pat, i)
  {
  }

  /** A string that lacks one of the pattern's characters cannot contain it. */
  lemma MissingChar(s: string, pat: string, c: char)
    requires c in pat && c !in s
    ensures !Contains(s, pat)
  {
    ContainsOccurrence(s, pat);
  }

  /** If nothing occurs before `n`, nothing occurs in the first `n` characters. */
  lemma NoneInPrefix(s: string, pat: string, n: nat)
    requires |pat| > 0
    requires n <= |s| && NoneBefore(s, pat, n)
    ensures !Contains(s[..n], pat)
  {
    forall j | 0 <= j
      ensures !OccursAt(s[..n], pat, j)
    {
      if j + |pat| <= n {
        assert s[..n][j..j + |pat|] == s[j..j + |pat|];
        assert !OccursAt(s, pat, j);
      }
    }
    ContainsOccurrence(s[..n], pat);
  }

  /** A boundary character that is not in `pat` keeps occurrences from
      straddling the boundary. */
  lemma SeparatedByChar(a: string, b: string, pat: string)
    requires (|a| > 0 && a[|a| - 1] !in pat) || (|b| > 0 && b[0] !in pat)
    ensures Separated(a, b, pat)
  {
    forall j | 0 <= j < |a| < j + |pat|
      ensures !OccursAt(a + b, pat, j)
    {
      var s := a + b;
      if j + |pat| <= |s| {
        if |a| > 0 && a[|a| - 1] !in pat {
          assert s[j..j + |pat|][|a| - 1 - j] == a[|a| - 1];
        } else {
          assert s[j..j + |pat|][|a| - j] == b[0];
        }
      }
    }
  }

  /** Dropping a prefix of `a` keeps `a` and `b` separated. */
  lemma SeparatedDrop(a: string, b: string, pat: string, k: nat)
    requires k <= |a| && Separated(a, b, pat)
    ensures Separated(a[k..], b, pat)
  {
    assert (a + b)[k..] == a[k..] + b;
    OccursAtDrop(a + b, pat, k);
  }

  /** Every non-overlapping occurrence of `pat`, found scanning left to right,
      replaced by `rep`; the inserted text is not scanned again
      (String.Replace with ordinal comparison, which rejects an empty `pat`). */
  function Replace(s: string, pat: string, rep: string): (r: string)
    requires |pat| > 0
    decreases |s|
  {
    if |s| < |pat| then s
    else if s[..|pat|] == pat then
      assert s == s[..|pat|] + s[|pat|..];
      rep + Replace(s[|pat|..], pat, rep)
    else
      assert s == [s[0]] + s[1..];
      [s[0]] + Replace(s[1..], pat, rep)
  }

  /** Replacing in a concatenation is replacing in each half, as long as no
      occurrence straddles the boundary. */
  lemma {:induction false} ReplaceAppend(a: string, b: string, pat: string, rep: string)
    requires |pat| > 0
    requires Separated(a, b, pat)
    ensures Replace(a + b, pat, rep) == Replace(a, pat, rep) + Replace(b, pat, rep)
    decreases |a|
  {
    var s := a + b;
    if |a| == 0 {
      assert s == b;
    } else if |s| < |pat| {
    } else if s[..|pat|] == pat {
      assert OccursAt(s, pat, 0);
      assert |pat| <= |a|;
      assert a[..|pat|] == s[..|pat|];
      SeparatedDrop(a, b, pat, |pat|);
      assert s[|pat|..] == a[|pat|..] + b;
      ReplaceAppend(a[|pat|..], b, pat, rep);
    } else {
      SeparatedDrop(a, b, pat, 1);
      assert s[1..] == a[1..] + b;
      ReplaceAppend(a[1..], b, pat, rep);
      if |a| >= |pat| {
        assert a[..|pat|] == s[..|pat|];
      } else {
        assert a == [a[0]] + a[1..];
      }
    }
  }

  /** The pattern on its own is replaced by `rep`. */
  lemma ReplaceWhole(pat: string, rep: string)
    requires |pat| > 0
    ensures Replace(pat, pat, rep) == rep
  {
    assert pat[..|pat|] == pat;
    assert pat[|pat|..] == "";
  }

  /** `ReplaceAppend` where a character at the boundary is not in `pat`. */
  lemma ReplaceAppendAt(a: string, b: string, pat: string, rep: string)
    requires |pat| > 0
    requires (|a| > 0 && a[|a| - 1] !in pat) || (|b| > 0 && b[0] !in pat)
    ensures Replace(a + b, pat, rep) == Replace(a, pat, rep) + Replace(b, pat, rep)
  {
    SeparatedByChar(a, b, pat);
    ReplaceAppend(a, b, pat, rep);
  }

  /** A single slot between two pattern-free texts is filled with `rep`, when
      a character of `pat` is missing from both texts and the characters
      around the slot are not in `pat`. */
  lemma FillSlot(pre: string, pat: string, post: string, rep: string, c: char)
    requires |pat| > 0 && c in pat && c !in pre && c !in post
    requires (|pre| > 0 && pre[|pre| - 1] !in pat) || |pre| == 0
    requires (|post| > 0 && post[0] !in pat) || |post| == 0
    ensures Replace(pre + pat + post, pat, rep) == pre + rep + post
  {
    var a := pre + pat;
    assert Replace(a + post, pat, rep) == Replace(a, pat, rep) + post by {
      if |post| > 0 {
        MissingChar(post, pat, c);
        ReplaceAbsent(post, pat, rep);
        ReplaceAppendAt(a, post, pat, rep);
      } else {
        assert a + post == a;
      }
    }
    assert Replace(a, pat, rep) == pre + rep by {
      ReplaceWhole(pat, rep);
      if |pre| > 0 {
        MissingChar(pre, pat, c);
        ReplaceAbsent(pre, pat, rep);
        ReplaceAppendAt(pre, pat, pat, rep);
      } else {
        assert a == pat;
      }
    }
  }

  /** The scan of `Replace`: the text before the leftmost occurrence is kept,
      that occurrence becomes `rep`, and the scan resumes after it. */
  lemma ReplaceLeftmost(s: string, pat: string, rep: string, i: nat)
    requires |pat| > 0
    requires OccursAt(s, pat, i) && NoneBefore(s, pat, i)
    ensures Replace(s, pat, rep) == s[..i] + rep + Replace(s[i + |pat|..], pat, rep)
  {
    var a, b, c := s[..i], s[i..], s[i + |pat|..];
    assert Replace(s, pat, rep) == Replace(a, pat, rep) + Replace(b, pat, rep) by {
      SplitBeforeOccurrence(s, pat, i);
      ReplaceAppend(a, b, pat, rep);
    }
    assert Replace(a, pat, rep) == a by {
      NoneInPrefix(s, pat, i);
      ReplaceAbsent(a, pat, rep);
    }
    assert Replace(b, pat, rep) == rep + Replace(c, pat, rep) by {
      SplitBeforeOccurrence(s, pat, i);
      ReplaceAtFront(pat, c, rep);
    }
    Reassociate(a, rep, Replace(c, pat, rep));
  }

  /** Helper: cut at the leftmost occurrence, nothing straddles the cut. */
  lemma SplitBeforeOccurrence(s: string, pat: string, i: nat)
    requires OccursAt(s, pat, i) && NoneBefore(s, pat, i)
    ensures s == s[..i] + s[i..] && s[i..] == pat + s[i + |pat|..]
    ensures Separated(s[..i], s[i..], pat)
  {
    assert s == s[..i] + s[i..];
    assert s[i..] == s[i..i + |pat|] + s[i + |pat|..];
    forall j | 0 <= j < i < j + |pat|
      ensures !OccursAt(s[..i] + s[i..], pat, j)
    {
      assert !OccursAt(s, pat, j);
    }
  }

  /** Helper: concatenation regrouped. */
  lemma Reassociate(x: string, y: string, z: string)
    ensures x + (y + z) == x + y + z
  {
  }

  /** A string without the pattern comes back unchanged. */
  lemma {:induction false} ReplaceAbsent(s: string, pat: string, rep: string)
    requires |pat| > 0 && !Contains(s, pat)
    ensures Replace(s, pat, rep) == s
    decreases |s|
  {
    if |s| >= |pat| {
      assert s[..|pat|] != pat;
      assert !Contains(s[1..], pat);
      ReplaceAbsent(s[1..], pat, rep);
      assert s == [s[0]] + s[1..];
    }
  }

  /** Replacing the pattern by itself changes nothing. */
  lemma {:induction false} ReplaceSelf(s: string, pat: string)
    requires |pat| > 0
    ensures Replace(s, pat, pat) == s
    decreases |s|
  {
    if |s| < |pat| {
    } else if s[..|pat|] == pat {
      ReplaceSelf(s[|pat|..], pat);
      assert s == s[..|pat|] + s[|pat|..];
    } else {
      ReplaceSelf(s[1..], pat);
      assert s == [s[0]] + s[1..];
    }
  }

  /** A replacement no longer than the pattern never lengthens the text. */
  lemma {:induction false} ReplaceShrinks(s: string, pat: string, rep: string)
    requires |pat| > 0 && |rep| <= |pat|
    ensures |Replace(s, pat, rep)| <= |s|
    decreases |s|
  {
    if |s| < |pat| {
    } else if s[..|pat|] == pat {
      ReplaceShrinks(s[|pat|..], pat, rep);
    } else {
      ReplaceShrinks(s[1..], pat, rep);
    }
  }

  /** Helper: an occurrence at the front is replaced first. */
  lemma ReplaceAtFront(pat: string, b: string, rep: string)
    requires |pat| > 0
    ensures Replace(pat + b, pat, rep) == rep + Replace(b, pat, rep)
  {
    assert (pat + b)[..|pat|] == pat;
    assert (pat + b)[|pat|..] == b;
  }

  /** The pieces of `s` between the non-overlapping occurrences of `pat`,
      found left to right (String.Split on a string separator). */
  function Split(s: string, pat: string): (parts: seq<string>)
    requires |pat| > 0
    ensures |parts| > 0
    ensures forall k :: 0 <= k < |parts| ==> !Contains(parts[k], pat)
    decreases |s|
  {
    match IndexOf(s, pat)
    case None => [s]
    case Some(i) =>
      NoneInPrefix(s, pat, i);
      [s[..i]] + Split(s[i + |pat|..], pat)
  }

  /** The pieces separated by `sep` (String.Join). */
  function Join(parts: seq<string>, sep: string): string
  {
    if |parts| == 0 then ""
    else if |parts| == 1 then parts[0]
    else parts[0] + sep + Join(parts[1..], sep)
  }

  /** Splitting at `pat` and joining with `pat` gives the input back. */
  lemma {:induction false} SplitJoin(s: string, pat: string)
    requires |pat| > 0
    ensures Join(Split(s, pat), pat) == s
    decreases |s|
  {
    match IndexOf(s, pat)
    case None =>
    case Some(i) =>
      var rest := s[i + |pat|..];
      SplitJoin(rest, pat);
      var parts := Split(s, pat);
      assert parts[1..] == Split(rest, pat);
      assert s == s[..i] + pat + rest;
  }

  /** Replacing `pat` by `rep` is splitting at `pat` and joining with `rep`. */
  lemma {:induction false} ReplaceViaSplit(s: string, pat: string, rep: string)
    requires |pat| > 0
    ensures Replace(s, pat, rep) == Join(Split(s, pat), rep)
    decreases |s|
  {
    match IndexOf(s, pat)
    case None =>
      ReplaceAbsent(s, pat, rep);
    case Some(i) =>
      ReplaceLeftmost(s, pat, rep, i);
      var rest := s[i + |pat|..];
      ReplaceViaSplit(rest, pat, rep);
      var parts := Split(s, pat);
      assert parts[1..] == Split(rest, pat);
  }

  /** `s` is empty or ends with a character that is not in `pat`, so no
      occurrence of `pat` can straddle the end of `s`. */
  predicate EndsClear(s: string, pat: string) {
    s == [] || s[|s| - 1] !in pat
  }

  /** Every piece is free of `pat`, and every piece but the last ends clear
      of it. */
  predicate PiecesClear(parts: seq<string>, pat: string) {
    && (forall k :: 0 <= k < |parts| ==> !Contains(parts[k], pat))
    && (forall k :: 0 <= k < |parts| - 1 ==> EndsClear(parts[k], pat))
  }

  /** Two pattern-free texts that no occurrence straddles make a
      pattern-free text. */
  lemma NoneInAppend(a: string, b: string, pat: string)
    requires !Contains(a, pat) && !Contains(b, pat) && Separated(a, b, pat)
    ensures !Contains(a + b, pat)
  {
    var s := a + b;
    forall j | 0 <= j
      ensures !OccursAt(s, pat, j)
    {
      if j + |pat| <= |a| {
        ContainsOccurrence(a, pat);
        OccursInLeft(a, b, pat, j);
      } else if |a| <= j {
        ContainsOccurrence(b, pat);
        OccursInRight(a, b, pat, j);
      }
    }
    ContainsOccurrence(s, pat);
  }

  /** Helper: an occurrence wholly inside `a` is one in `a + b`. */
  lemma OccursInLeft(a: string, b: string, pat: string, j: nat)
    requires j + |pat| <= |a|
    ensures OccursAt(a + b, pat, j) <==> OccursAt(a, pat, j)
  {
    assert (a + b)[j..j + |pat|] == a[j..j + |pat|];
  }

  /** Helper: an occurrence wholly inside `b` is one in `a + b`, shifted. */
  lemma OccursInRight(a: string, b: string, pat: string, j: nat)
    requires |a| <= j
    ensures OccursAt(a + b, pat, j) <==> OccursAt(b, pat, j - |a|)
  {
    if j + |pat| <= |a| + |b| {
      assert (a + b)[j..j + |pat|] == b[j - |a|..j - |a| + |pat|];
    }
  }

  /** Joining pattern-free pieces with a separator that holds `pat` once,
      between pattern-free texts, and then replacing `pat` by `rep`, is the
      same as joining with `rep` in the separator's place.  With empty
      `pre` and `post` this is the converse of `ReplaceViaSplit`. */
  lemma {:induction false} ReplaceJoin(pieces: seq<string>, pre: string, pat: string, post: string,
                                       rep: string)
    requires |pat| > 0
    requires forall k :: 0 <= k < |pieces| ==> !Contains(pieces[k], pat)
    requires forall k :: 0 <= k < |pieces| - 1 ==> EndsClear(pieces[k], pat)
    requires !Contains(pre, pat) && EndsClear(pre, pat)
    requires !Contains(post, pat) && EndsClear(post, pat)
    ensures Replace(Join(pieces, pre + pat + post), pat, rep) == Join(pieces, pre + rep + post)
    decreases |pieces|
  {
    if |pieces| == 0 {
    } else if |pieces| == 1 {
      ReplaceAbsent(pieces[0], pat, rep);
    } else {
      var p0, rest := pieces[0], pieces[1..];
      var j := Join(rest, pre + pat + post);
      assert Replace(j, pat, rep) == Join(rest, pre + rep + post) by {
        ReplaceJoin(rest, pre, pat, post, rep);
      }
      assert Replace(post + j, pat, rep) == post + Replace(j, pat, rep) by {
        ClearAppend(post, j, pat, rep);
      }
      assert Replace(pat + (post + j), pat, rep) == rep + Replace(post + j, pat, rep) by {
        assert OccursAt(pat + (post + j), pat, 0);
        ReplaceLeftmost(pat + (post + j), pat, rep, 0);
        assert (pat + (post + j))[|pat|..] == post + j;
      }
      assert Replace(pre + (pat + (post + j)), pat, rep) == pre + Replace(pat + (post + j), pat, rep) by {
        ClearAppend(pre, pat + (post + j), pat, rep);
      }
      assert Replace(p0 + (pre + (pat + (post + j))), pat, rep)
          == p0 + Replace(pre + (pat + (post + j)), pat, rep) by {
        ClearAppend(p0, pre + (pat + (post + j)), pat, rep);
      }
      Regroup(p0, pre, pat, post, j);
      Regroup(p0, pre, rep, post, Join(rest, pre + rep + post));
    }
  }

  /** Helper: concatenation regrouped to the right. */
  lemma Regroup(a: string, b: string, c: string, d: string, e: string)
    ensures a + (b + c + d) + e == a + (b + (c + (d + e)))
  {
  }

  /** Helper: a pattern-free text that ends clear passes through `Replace`
      unchanged, whatever follows it. */
  lemma ClearAppend(a: string, b: string, pat: string, rep: string)
    requires |pat| > 0 && !Contains(a, pat) && EndsClear(a, pat)
    ensures Replace(a + b, pat, rep) == a + Replace(b, pat, rep)
  {
    if a == [] {
      assert a + b == b;
    } else {
      ReplaceAbsent(a, pat, rep);
      ReplaceAppendAt(a, b, pat, rep);
    }
  }

  /** Two or more parts joined by `sep` contain `sep`. */
  lemma JoinContainsSeparator(parts: seq<string>, sep: string)
    requires |parts| >= 2
    ensures Contains(Join(parts, sep), sep)
  {
    var s := Join(parts, sep);
    assert s == parts[0] + sep + Join(parts[1..], sep);
    assert OccursAt(s, sep, |parts[0]|) by {
      assert s[|parts[0]|..|parts[0]| + |sep|] == sep;
    }
    ContainsOccurrence(s, sep);
  }

  /** Pattern-free pieces joined by a pattern-free separator, with nothing
      ending inside an occurrence, hold no occurrence. */
  lemma {:induction false} JoinNone(parts: seq<string>, sep: string, pat: string)
    requires forall k :: 0 <= k < |parts| ==> !Contains(parts[k], pat)
    requires forall k :: 0 <= k < |parts| - 1 ==> EndsClear(parts[k], pat)
    requires !Contains(sep, pat) && EndsClear(sep, pat)
    ensures !Contains(Join(parts, sep), pat)
    decreases |parts|
  {
    if |parts| >= 2 {
      var p, j := parts[0], Join(parts[1..], sep);
      JoinNone(parts[1..], sep, pat);
      EndsClearSeparated(p, sep, pat);
      NoneInAppend(p, sep, pat);
      EndsClearAppend(p, sep, pat);
      EndsClearSeparated(p + sep, j, pat);
      NoneInAppend(p + sep, j, pat);
    }
  }

  /** Helper: a text that ends clear is separated from whatever follows. */
  lemma EndsClearSeparated(a: string, b: string, pat: string)
    requires EndsClear(a, pat)
    ensures Separated(a, b, pat)
  {
    if |a| > 0 {
      SeparatedByChar(a, b, pat);
    }
  }

  /** Pieces joined by `prefix + value + suffix` hold no occurrence when a
      character `c` of the pattern appears in none of the three parts and
      the outer characters of the separator are not in the pattern. */
  lemma SlotJoinLacks(parts: seq<string>, prefix: string, value: string, suffix: string,
                      c: char, pat: string)
    requires PiecesClear(parts, pat)
    requires c in pat && c !in prefix && c !in value && c !in suffix
    requires |prefix| > 0 && prefix[|prefix| - 1] !in pat
    requires |suffix| > 0 && suffix[0] !in pat && suffix[|suffix| - 1] !in pat
    ensures !Contains(Join(parts, prefix + value + suffix), pat)
  {
    MissingChar(prefix, pat, c);
    MissingChar(value, pat, c);
    MissingChar(suffix, pat, c);
    SeparatedByChar(prefix, value, pat);
    NoneInAppend(prefix, value, pat);
    SeparatedByChar(prefix + value, suffix, pat);
    NoneInAppend(prefix + value, suffix, pat);
    JoinNone(parts, prefix + value + suffix, pat);
  }

  /** Helper: two texts that end clear make one that ends clear. */
  lemma EndsClearAppend(a: string, b: string, pat: string)
    requires EndsClear(a, pat) && EndsClear(b, pat)
    ensures EndsClear(a + b, pat)
  {
    if b == [] {
      assert a + b == a;
    }
  }

  /** A string with `pat` written into it contains `pat`. */
  lemma ContainsMiddle(a: string, pat: string, b: string)
    ensures Contains(a + pat + b, pat)
  {
    var s := a + pat + b;
    assert s[|a|..|a| + |pat|] == pat;
    assert OccursAt(s, pat, |a|);
    ContainsOccurrence(s, pat);
  }

  /** `ReplaceJoin` with the bare pattern as the separator. */
  lemma ReplaceJoinBare(pieces: seq<string>, pat: string, rep: string)
    requires |pat| > 0
    requires forall k :: 0 <= k < |pieces| ==> !Contains(pieces[k], pat)
    requires forall k :: 0 <= k < |pieces| - 1 ==> EndsClear(pieces[k], pat)
    ensures Replace(Join(pieces, pat), pat, rep) == Join(pieces, rep)
  {
    assert "" + pat + "" == pat;
    assert "" + rep + "" == rep;
    ReplaceJoin(pieces, "", pat, "", rep);
  }
}
