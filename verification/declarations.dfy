/** Removal of markup declarations such as `<!DOCTYPE ...>` and `<!-- ... -->`
    from the body text the editor returns.

    The control deletes every match of the regular expression `<![^>]*>`
    in one left-to-right pass.  A match starts at a `<!` and, because
    `[^>]*` cannot cross a `>`, ends at the first `>` after it.  When no `>`
    follows a `<!`, no later position can match either, so the rest of the
    text is kept as it is. */
module Declarations {
  import opened Results
  import opened Text

  const DeclOpen := "<!"
  const DeclClose := ">"

  /** Every `<![^>]*>` match deleted, scanning left to right, one pass. */
  function StripDeclarations(s: string): (r: string)
    ensures |r| <= |s|
    ensures !Contains(s, DeclOpen) ==> r == s
    decreases |s|
  {
    if |s| < 2 then s
    else if s[0] == '<' && s[1] == '!' then
      match IndexOf(s[2..], DeclClose)
      case None => s
      case Some(k) => StripDeclarations(s[k + 3..])
    else
      assert s[..2] != DeclOpen;
      [s[0]] + StripDeclarations(s[1..])
  }

  /** A declaration with content `m`: `<!`, then `m`, then `>`. */
  function Declaration(m: string): string {
    DeclOpen + m + DeclClose
  }

  /** The leftmost declaration goes: the text before its `<!` is kept, the
      span through the first following `>` is deleted, and the scan resumes
      after that `>`. */
  lemma {:induction false} StripRemovesDeclaration(a: string, m: string, b: string)
    requires !Contains(a, DeclOpen)
    requires '>' !in m
    ensures StripDeclarations(a + Declaration(m) + b) == a + StripDeclarations(b)
    decreases |a|
  {
    if |a| == 0 {
      assert a + Declaration(m) + b == DeclOpen + m + DeclClose + b;
      StripAtDeclaration(m, b);
    } else {
      var rest := Declaration(m) + b;
      var t := a[1..] + rest;
      assert a + Declaration(m) + b == [a[0]] + t;
      assert StripDeclarations(t) == a[1..] + StripDeclarations(b) by {
        NoOpenInTail(a);
        StripRemovesDeclaration(a[1..], m, b);
        Reassociate(a[1..], Declaration(m), b);
      }
      NoOpenAtFront(a, rest);
      StripStep(a[0], t);
      HeadTail(a, StripDeclarations(b));
    }
  }

  /** A `<!` that no `>` follows is kept, and so is everything after it. */
  lemma {:induction false} StripKeepsUnclosed(a: string, m: string)
    requires !Contains(a, DeclOpen)
    requires '>' !in m
    ensures StripDeclarations(a + (DeclOpen + m)) == a + (DeclOpen + m)
    decreases |a|
  {
    var rest := DeclOpen + m;
    if |a| == 0 {
      assert a + rest == rest;
      assert rest[2..] == m;
      MissingChar(m, DeclClose, '>');
    } else {
      var t := a[1..] + rest;
      assert a + rest == [a[0]] + t;
      NoOpenInTail(a);
      StripKeepsUnclosed(a[1..], m);
      NoOpenAtFront(a, rest);
      StripStep(a[0], t);
      HeadTail(a, rest);
    }
  }

  /** A text that does not start with `<` keeps its first character. */
  lemma StripKeepsPlainHead(s: string)
    requires |s| > 0 && s[0] != '<'
    ensures |StripDeclarations(s)| > 0 && StripDeclarations(s)[0] == s[0]
  {
  }

  /** Helper: a declaration at the very front is deleted through its `>`. */
  lemma StripAtDeclaration(m: string, b: string)
    requires '>' !in m
    ensures StripDeclarations(DeclOpen + m + DeclClose + b) == StripDeclarations(b)
  {
    var s := DeclOpen + m + DeclClose + b;
    assert s[2..] == m + DeclClose + b;
    FirstClose(m, b);
    assert s[|m| + 3..] == b;
  }

  /** Helper: a character that does not open a declaration is kept. */
  lemma StripStep(c: char, t: string)
    requires !(c == '<' && |t| > 0 && t[0] == '!')
    ensures StripDeclarations([c] + t) == [c] + StripDeclarations(t)
  {
    var s := [c] + t;
    if |s| >= 2 {
      assert s[1..] == t;
    } else {
      assert t == [];
    }
  }

  /** Helper: the first character of a `<!`-free, non-empty `a` does not
      open a declaration when `a` is followed by text starting with `<`. */
  lemma NoOpenAtFront(a: string, rest: string)
    requires |a| > 0 && !Contains(a, DeclOpen)
    requires |rest| > 0 && rest[0] == '<'
    ensures !(a[0] == '<' && (a[1..] + rest)[0] == '!')
  {
    if |a| > 1 {
      assert !OccursAt(a, DeclOpen, 0);
      assert a[..2] == [a[0], a[1]];
    }
  }

  /** One pass is not a closure: deleting a declaration can bring a `<` and
      a `!>` together into a new one, which the pass leaves in place. */
  lemma StripIsSinglePass()
    ensures StripDeclarations("<<!x>!>") == "<!>"
    ensures StripDeclarations(StripDeclarations("<<!x>!>")) == ""
  {
    assert StripDeclarations("<<!x>!>") == "<!>" by {
      assert "<<!x>!>" == "<" + Declaration("x") + "!>";
      StripRemovesDeclaration("<", "x", "!>");
      StripStep('!', ">");
    }
    assert StripDeclarations("<!>") == "" by {
      assert "<!>" == DeclOpen + "" + DeclClose + "";
      StripAtDeclaration("", "");
    }
  }

  /** Helper: the first `>` of `m + ">" + b` is the one after `m`. */
  lemma FirstClose(m: string, b: string)
    requires '>' !in m
    ensures IndexOf(m + DeclClose + b, DeclClose) == Some(|m|)
  {
    var s := m + DeclClose + b;
    assert OccursAt(s, DeclClose, |m|);
    forall k | 0 <= k < |m|
      ensures !OccursAt(s, DeclClose, k)
    {
      assert s[k] == m[k];
    }
  }

  /** Helper: re-attaching the first character. */
  lemma HeadTail(a: string, tail: string)
    requires |a| > 0
    ensures [a[0]] + (a[1..] + tail) == a + tail
  {
    assert a == [a[0]] + a[1..];
  }

  /** Helper: a string free of `<!` has a tail free of `<!`. */
  lemma NoOpenInTail(a: string)
    requires |a| > 0 && !Contains(a, DeclOpen)
    ensures !Contains(a[1..], DeclOpen)
  {
    OccursAtDrop(a, DeclOpen, 1);
  }
}
