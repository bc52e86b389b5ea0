/** What each rewrite of `generateSlug` (server/routes.ts) does to a name,
    exactly: how the rewrites split over concatenations, what they make of a
    run of white space or of hyphens, and which letters and digits survive. */
module SlugLaws {
  import opened Text
  import opened Slug

  /** The characters of `[a-z0-9]` in `s`, in order. */
  function LettersAndDigits(s: string): (r: string)
    ensures |r| <= |s|
  {
    if s == [] then []
    else (if IsSlugChar(s[0]) && s[0] != '-' then [s[0]] else []) + LettersAndDigits(s[1..])
  }

  /** `s` with every `-` removed. */
  function Unhyphenated(s: string): (r: string)
    ensures |r| <= |s|
  {
    if s == [] then [] else (if s[0] == '-' then [] else [s[0]]) + Unhyphenated(s[1..])
  }

  /** The character filter works character by character, so it keeps the
      order: filtering a concatenation concatenates the filtered parts. */
  lemma {:induction false} KeepSlugCharsAppend(a: string, b: string)
    ensures KeepSlugChars(a + b) == KeepSlugChars(a) + KeepSlugChars(b)
  {
    if a == [] {
      assert a + b == b;
    } else {
      assert (a + b)[1..] == a[1..] + b;
      KeepSlugCharsAppend(a[1..], b);
    }
  }

  /** On one character: kept when it is in `[a-z0-9 -]`, dropped otherwise. */
  lemma KeepSlugCharsOne(c: char)
    ensures KeepSlugChars([c]) == if IsKept(c) then [c] else []
  {
    assert [c][1..] == [];
  }

  lemma ConcatAssoc(x: string, y: string, z: string)
    ensures x + (y + z) == (x + y) + z
  {
  }

  /** What the white-space rewrite writes for the first character. */
  function SpacesHead(s: string): string
    requires s != []
  {
    if IsSpace(s[0]) then (if |s| > 1 && IsSpace(s[1]) then "" else "-") else [s[0]]
  }

  lemma SpacesToHyphensCons(s: string)
    requires s != []
    ensures SpacesToHyphens(s) == SpacesHead(s) + SpacesToHyphens(s[1..])
  {
  }

  /** The white-space rewrite may be split at any point that is not inside a
      run of white space. */
  lemma {:induction false} SpacesToHyphensAppend(a: string, b: string)
    requires a == [] || b == [] || !IsSpace(a[|a| - 1]) || !IsSpace(b[0])
    ensures SpacesToHyphens(a + b) == SpacesToHyphens(a) + SpacesToHyphens(b)
  {
    if a == [] {
      assert a + b == b;
    } else {
      var ab := a + b;
      assert ab[1..] == a[1..] + b;
      SpacesHeadOfAppend(a, b);
      SpacesToHyphensCons(ab);
      SpacesToHyphensCons(a);
      SpacesToHyphensAppend(a[1..], b);
      ConcatAssoc(SpacesHead(a), SpacesToHyphens(a[1..]), SpacesToHyphens(b));
    }
  }

  /** Outside a white-space run, the first character is rewritten the same
      way whatever follows. */
  lemma SpacesHeadOfAppend(a: string, b: string)
    requires a != []
    requires b == [] || !IsSpace(a[|a| - 1]) || !IsSpace(b[0])
    ensures SpacesHead(a + b) == SpacesHead(a)
  {
    var ab := a + b;
    assert ab[0] == a[0];
    if |a| > 1 {
      assert ab[1] == a[1];
    } else if b != [] {
      assert ab[1] == b[0];
    }
  }

  /** A whole run of white space becomes one hyphen. */
  lemma {:induction false} SpaceRunIsHyphen(w: string)
    requires w != [] && AllSpace(w)
    ensures SpacesToHyphens(w) == "-"
  {
    if |w| > 1 {
      SpaceRunIsHyphen(w[1..]);
    }
  }

  /** What the hyphen rewrite writes for the first character. */
  function HyphensHead(s: string): string
    requires s != []
  {
    if s[0] == '-' && |s| > 1 && s[1] == '-' then "" else [s[0]]
  }

  lemma CollapseHyphensCons(s: string)
    requires s != []
    ensures CollapseHyphens(s) == HyphensHead(s) + CollapseHyphens(s[1..])
  {
  }

  /** Outside a hyphen run, the first character is rewritten the same way
      whatever follows. */
  lemma HyphensHeadOfAppend(a: string, b: string)
    requires a != []
    requires b == [] || a[|a| - 1] != '-' || b[0] != '-'
    ensures HyphensHead(a + b) == HyphensHead(a)
  {
    var ab := a + b;
    assert ab[0] == a[0];
    if |a| > 1 {
      assert ab[1] == a[1];
    } else if b != [] {
      assert ab[1] == b[0];
    }
  }

  /** The hyphen rewrite may be split at any point that is not inside a run
      of hyphens. */
  lemma {:induction false} CollapseHyphensAppend(a: string, b: string)
    requires a == [] || b == [] || a[|a| - 1] != '-' || b[0] != '-'
    ensures CollapseHyphens(a + b) == CollapseHyphens(a) + CollapseHyphens(b)
  {
    if a == [] {
      assert a + b == b;
    } else {
      var ab := a + b;
      assert ab[1..] == a[1..] + b;
      HyphensHeadOfAppend(a, b);
      CollapseHyphensCons(ab);
      CollapseHyphensCons(a);
      CollapseHyphensAppend(a[1..], b);
      ConcatAssoc(HyphensHead(a), CollapseHyphens(a[1..]), CollapseHyphens(b));
    }
  }

  /** A whole run of hyphens becomes one hyphen. */
  lemma {:induction false} HyphenRunIsHyphen(w: string)
    requires w != [] && forall i :: 0 <= i < |w| ==> w[i] == '-'
    ensures CollapseHyphens(w) == "-"
  {
    if |w| > 1 {
      HyphenRunIsHyphen(w[1..]);
    }
  }

  lemma LettersAndDigitsCons(c: char, s: string)
    ensures LettersAndDigits([c] + s)
      == (if IsSlugChar(c) && c != '-' then [c] else []) + LettersAndDigits(s)
  {
    assert ([c] + s)[1..] == s;
  }

  /** No rewrite loses, adds or reorders a letter or a digit. */
  lemma {:induction false} KeepSlugCharsLetters(s: string)
    ensures LettersAndDigits(KeepSlugChars(s)) == LettersAndDigits(s)
  {
    if s != [] {
      KeepSlugCharsLetters(s[1..]);
      if IsKept(s[0]) {
        LettersAndDigitsCons(s[0], KeepSlugChars(s[1..]));
      }
    }
  }

  lemma {:induction false} SpacesToHyphensLetters(s: string)
    ensures LettersAndDigits(SpacesToHyphens(s)) == LettersAndDigits(s)
  {
    if s != [] {
      var h := SpacesHead(s);
      SpacesToHyphensCons(s);
      SpacesToHyphensLetters(s[1..]);
      if IsSpace(s[0]) {
        assert LettersAndDigits(h) == [] by {
          if h != [] {
            LettersAndDigitsCons('-', []);
          }
        }
        LettersAndDigitsAppend(h, SpacesToHyphens(s[1..]));
        LettersAndDigitsCons(s[0], s[1..]);
      } else {
        LettersAndDigitsCons(s[0], SpacesToHyphens(s[1..]));
        LettersAndDigitsCons(s[0], s[1..]);
      }
      assert [s[0]] + s[1..] == s;
    }
  }

  lemma {:induction false} LettersAndDigitsAppend(x: string, y: string)
    ensures LettersAndDigits(x + y) == LettersAndDigits(x) + LettersAndDigits(y)
  {
    if x == [] {
      assert x + y == y;
    } else {
      assert (x + y)[1..] == x[1..] + y;
      LettersAndDigitsAppend(x[1..], y);
    }
  }

  lemma {:induction false} CollapseHyphensLetters(s: string)
    ensures LettersAndDigits(CollapseHyphens(s)) == LettersAndDigits(s)
  {
    if s != [] {
      CollapseHyphensLetters(s[1..]);
      if !(s[0] == '-' && |s| > 1 && s[1] == '-') {
        LettersAndDigitsCons(s[0], CollapseHyphens(s[1..]));
      }
    }
  }

  /** In a text of slug characters, dropping the hyphens leaves exactly the
      letters and digits. */
  lemma {:induction false} UnhyphenatedSlug(s: string)
    requires forall i :: 0 <= i < |s| ==> IsSlugChar(s[i])
    ensures Unhyphenated(s) == LettersAndDigits(s)
  {
    if s != [] {
      UnhyphenatedSlug(s[1..]);
    }
  }

  predicate IsWord(s: string) {
    s != [] && forall i :: 0 <= i < |s| ==> IsSlugChar(s[i]) && s[i] != '-'
  }

  /** The filter drops a text none of whose characters it keeps. */
  lemma {:induction false} KeepSlugCharsNone(s: string)
    requires forall i :: 0 <= i < |s| ==> !IsKept(s[i])
    ensures KeepSlugChars(s) == []
  {
    if s != [] {
      KeepSlugCharsNone(s[1..]);
    }
  }

  lemma TwoWordKept(a: string, w: string, b: string, tail: string)
    requires IsWord(a) && IsWord(b)
    requires forall i :: 0 <= i < |w| ==> w[i] == ' '
    requires forall i :: 0 <= i < |tail| ==> !IsKept(tail[i])
    ensures KeepSlugChars(a + w + b + tail) == a + w + b
  {
    KeepSlugCharsAppend(a + w + b, tail);
    KeepSlugCharsNone(tail);
    var k := a + w + b;
    assert forall i :: 0 <= i < |k| ==> IsKept(k[i]);
  }

  lemma WordHasNoSpace(a: string)
    requires IsWord(a)
    ensures !IsSpace(a[0]) && !IsSpace(a[|a| - 1])
    ensures SpacesToHyphens(a) == a
  {
    assert NoSpace(a);
  }

  lemma TwoWordHyphens(a: string, w: string, b: string)
    requires IsWord(a) && IsWord(b)
    requires w != [] && forall i :: 0 <= i < |w| ==> w[i] == ' '
    ensures SpacesToHyphens(a + w + b) == a + "-" + b
  {
    WordHasNoSpace(a);
    WordHasNoSpace(b);
    SpaceRunIsHyphen(w);
    SpacesToHyphensAppend(a, w);
    var aw := a + w;
    assert aw[|aw| - 1] == w[|w| - 1];
    SpacesToHyphensAppend(aw, b);
  }



  lemma TwoWordCollapse(a: string, b: string)
    requires IsWord(a) && IsWord(b)
    ensures CollapseHyphens(a + "-" + b) == a + "-" + b
  {
    var h := a + "-" + b;
    forall i | 0 <= i < |h| - 1 ensures !(h[i] == '-' && h[i + 1] == '-') {
      if i < |a| {
        assert h[i] == a[i];
      } else {
        assert h[i + 1] == b[i - |a|];
      }
    }
  }

  /** Two words of `[a-z0-9]` separated by spaces and followed by characters
      the filter drops: the slug is the two words joined by one hyphen. */
  lemma TwoWordSlug(name: string, a: string, w: string, b: string, tail: string)
    requires IsWord(a) && IsWord(b)
    requires w != [] && forall i :: 0 <= i < |w| ==> w[i] == ' '
    requires forall i :: 0 <= i < |tail| ==> !IsKept(tail[i])
    requires Lower(name) == a + w + b + tail
    ensures GenerateSlug(name) == a + "-" + b
  {
    TrimIsNoOp(name);
    TwoWordKept(a, w, b, tail);
    TwoWordHyphens(a, w, b);
    TwoWordCollapse(a, b);
  }

  /** A name with a double space and a punctuation mark. */
  lemma JohnDoeSlug()
    ensures GenerateSlug("John  Doe!") == "john-doe"
  {
    JohnDoeLower();
    JohnDoeParts();
    TwoWordSlug("John  Doe!", "john", "  ", "doe", "!");
  }

  lemma JohnDoeLower()
    ensures Lower("John  Doe!") == "john" + "  " + "doe" + "!"
  {
  }

  lemma JohnDoeParts()
    ensures IsWord("john") && IsWord("doe")
    ensures forall i :: 0 <= i < |"  "| ==> "  "[i] == ' '
    ensures forall i :: 0 <= i < |"!"| ==> !IsKept("!"[i])
    ensures "john" + "-" + "doe" == "john-doe"
  {
  }

  /** What a name keeps: dropping the hyphens from its slug leaves the
      letters and digits of the lower-cased name, all of them and in order. */
  lemma SlugKeepsLettersAndDigits(name: string)
    ensures Unhyphenated(GenerateSlug(name)) == LettersAndDigits(Lower(name))
  {
    var k := KeepSlugChars(Lower(name));
    var h := SpacesToHyphens(k);
    TrimIsNoOp(name);
    UnhyphenatedSlug(GenerateSlug(name));
    CollapseHyphensLetters(h);
    SpacesToHyphensLetters(k);
    KeepSlugCharsLetters(Lower(name));
  }
}
