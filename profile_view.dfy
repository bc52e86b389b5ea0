/** The public profile page (client/src/pages/profile.tsx): how the stored
    `skills` and `achievements` texts become lists, and the description and
    keyword texts built for search engines. */
module ProfileView {
  import opened Wrappers
  import opened Text
  import opened Schema

  // ------------------------------------------------------------------ skills

  function Trims(pieces: seq<string>): (r: seq<string>)
    ensures |r| == |pieces|
    ensures forall i :: 0 <= i < |r| ==> r[i] == Trim(pieces[i])
  {
    seq(|pieces|, i requires 0 <= i < |pieces| => Trim(pieces[i]))
  }

  /** `skills ? skills.split(',').map(s => s.trim()) : []`: nothing for a
      missing or empty text, otherwise one entry per comma-separated piece,
      in order, each trimmed. Pieces may come out empty. */
  function SkillsArray(skills: Option<string>): (r: seq<string>)
    ensures skills.None? || skills.value == [] ==> r == []
    ensures skills.Some? && skills.value != [] ==>
      |r| == Count(skills.value, ',') + 1
      && forall i :: 0 <= i < |r| ==> r[i] == Trim(Split(skills.value, ',')[i])
    ensures forall i :: 0 <= i < |r| ==> ',' !in r[i] && Trimmed(r[i])
  {
    if skills.None? || skills.value == [] then []
    else
      var pieces := Split(skills.value, ',');
      var r := Trims(pieces);
      forall i | 0 <= i < |r| ensures ',' !in r[i] {
        TrimKeepsOut(pieces[i], ',');
      }
      r
  }

  /** `pre` put in front of every piece. */
  function Prefixed(parts: seq<string>, pre: string): (r: seq<string>)
    ensures |r| == |parts|
    ensures forall i :: 0 <= i < |r| ==> r[i] == pre + parts[i]
  {
    seq(|parts|, i requires 0 <= i < |parts| => pre + parts[i])
  }

  lemma JoinHeadPrefix(pre: string, x: string, rest: seq<string>, sep: string)
    ensures Join([pre + x] + rest, sep) == pre + Join([x] + rest, sep)
  {
    if |rest| > 0 {
      JoinCons(pre + x, rest, sep);
      JoinCons(x, rest, sep);
    }
  }

  /** Joining with `sep + pre` is joining with `sep` after putting `pre`
      before every piece but the first. */
  lemma {:induction false} JoinLongerSeparator(parts: seq<string>, sep: string, pre: string)
    requires |parts| > 0
    ensures Join(parts, sep + pre) == Join([parts[0]] + Prefixed(parts[1..], pre), sep)
  {
    if |parts| > 1 {
      var tail := parts[1..];
      JoinLongerSeparator(tail, sep, pre);
      assert Prefixed(tail, pre) == [pre + tail[0]] + Prefixed(tail[1..], pre);
      JoinHeadPrefix(pre, tail[0], Prefixed(tail[1..], pre), sep);
      JoinCons(parts[0], Prefixed(tail, pre), sep);
    }
  }

  /** The `, `-join of `skills` split on its commas: every skill but the
      first keeps the space in front of it. */
  function Spaced(skills: seq<string>): (pieces: seq<string>)
    requires |skills| > 0
    ensures |pieces| == |skills|
  {
    [skills[0]] + Prefixed(skills[1..], " ")
  }

  lemma TrimSpacedPiece(skills: seq<string>, i: int)
    requires 0 <= i < |skills| && Trimmed(skills[i])
    ensures Trim(Spaced(skills)[i]) == skills[i]
  {
    TrimOfTrimmed(skills[i]);
    if i > 0 {
      assert Spaced(skills)[i] == Prefixed(skills[1..], " ")[i - 1] == " " + skills[i];
      TrimLeadingSpace(skills[i]);
    }
  }

  /** Trimming the pieces gives back the trimmed skills. */
  lemma TrimsOfSpaced(skills: seq<string>)
    requires |skills| > 0
    requires forall i :: 0 <= i < |skills| ==> Trimmed(skills[i])
    ensures Trims(Spaced(skills)) == skills
  {
    var r := Trims(Spaced(skills));
    forall i | 0 <= i < |skills| ensures r[i] == skills[i] {
      TrimSpacedPiece(skills, i);
    }
  }

  lemma SpacedHasNoComma(skills: seq<string>)
    requires |skills| > 0
    requires forall i :: 0 <= i < |skills| ==> ',' !in skills[i]
    ensures forall i :: 0 <= i < |skills| ==> ',' !in Spaced(skills)[i]
  {
    forall i | 0 <= i < |skills| ensures ',' !in Spaced(skills)[i] {
      if i > 0 {
        assert Spaced(skills)[i] == Prefixed(skills[1..], " ")[i - 1] == " " + skills[i];
      }
    }
  }

  lemma SpacedJoin(skills: seq<string>)
    requires |skills| > 0
    ensures Join(skills, ", ") == Join(Spaced(skills), [','])
  {
    assert ", " == [','] + " ";
    JoinLongerSeparator(skills, [','], " ");
  }

  lemma SpacedSplit(skills: seq<string>)
    requires |skills| > 0
    requires forall i :: 0 <= i < |skills| ==> ',' !in skills[i]
    ensures Split(Join(skills, ", "), ',') == Spaced(skills)
  {
    SpacedJoin(skills);
    SpacedHasNoComma(skills);
    SplitJoin(Spaced(skills), ',');
  }

  /** Skills typed the way the form asks, separated by `, `, come back as
      typed. */
  lemma SkillsReadBack(skills: seq<string>)
    requires |skills| > 0 && Join(skills, ", ") != []
    requires forall i :: 0 <= i < |skills| ==> ',' !in skills[i] && Trimmed(skills[i])
    ensures SkillsArray(Some(Join(skills, ", "))) == skills
  {
    SpacedSplit(skills);
    TrimsOfSpaced(skills);
  }

  // ------------------------------------------------------------ achievements

  /** `a => a.trim()` as a test: the line has something besides white
      space. */
  predicate HasText(line: string) {
    |Trim(line)| > 0
  }

  /** `lines.filter(keep)`: the lines `keep` accepts, in order. */
  function Filter(lines: seq<string>, keep: string -> bool): (r: seq<string>)
    ensures |r| <= |lines|
  {
    if lines == [] then []
    else (if keep(lines[0]) then [lines[0]] else []) + Filter(lines[1..], keep)
  }

  /** The filter keeps exactly the lines it accepts. */
  lemma {:induction false} FilterMembers(lines: seq<string>, keep: string -> bool, x: string)
    ensures x in Filter(lines, keep) <==> x in lines && keep(x)
  {
    if lines != [] {
      FilterMembers(lines[1..], keep, x);
      assert lines == [lines[0]] + lines[1..];
    }
  }

  /** The filter keeps the order: it works piece by piece. */
  lemma {:induction false} FilterAppend(a: seq<string>, b: seq<string>, keep: string -> bool)
    ensures Filter(a + b, keep) == Filter(a, keep) + Filter(b, keep)
  {
    if a == [] {
      assert a + b == b;
    } else {
      var x := if keep(a[0]) then [a[0]] else [];
      FilterAppend(a[1..], b, keep);
      assert (a + b)[1..] == a[1..] + b;
      calc {
        Filter(a + b, keep);
        x + Filter(a[1..] + b, keep);
        x + (Filter(a[1..], keep) + Filter(b, keep));
        (x + Filter(a[1..], keep)) + Filter(b, keep);
        Filter(a, keep) + Filter(b, keep);
      }
    }
  }

  lemma {:induction false} FilterKeepsAll(lines: seq<string>, keep: string -> bool)
    requires forall i :: 0 <= i < |lines| ==> keep(lines[i])
    ensures Filter(lines, keep) == lines
  {
    if lines != [] {
      FilterKeepsAll(lines[1..], keep);
    }
  }

  /** `achievements ? achievements.split('\n').filter(a => a.trim()) : []`:
      the lines of the text that are not blank, in order and not trimmed. */
  function AchievementsArray(achievements: Option<string>): (r: seq<string>)
    ensures achievements.None? || achievements.value == [] ==> r == []
    ensures forall i :: 0 <= i < |r| ==> '\n' !in r[i] && HasText(r[i])
  {
    if achievements.None? || achievements.value == [] then []
    else
      var lines := Split(achievements.value, '\n');
      var r := Filter(lines, HasText);
      forall i | 0 <= i < |r| ensures '\n' !in r[i] && HasText(r[i]) {
        FilterMembers(lines, HasText, r[i]);
      }
      r
  }

  /** An achievement is shown exactly when it is a line of the text that is
      not blank. */
  lemma AchievementsAreTheNonBlankLines(text: string, x: string)
    requires text != []
    ensures x in AchievementsArray(Some(text)) <==> x in Split(text, '\n') && HasText(x)
  {
    FilterMembers(Split(text, '\n'), HasText, x);
  }

  lemma LinesSplit(lines: seq<string>)
    requires |lines| > 0
    requires forall i :: 0 <= i < |lines| ==> '\n' !in lines[i]
    ensures Split(Join(lines, "\n"), '\n') == lines
  {
    assert "\n" == ['\n'];
    SplitJoin(lines, '\n');
  }

  lemma JoinNotEmpty(lines: seq<string>, sep: string)
    requires |lines| > 0 && |Trim(lines[0])| > 0
    ensures |Join(lines, sep)| > 0
  {
    if |lines| > 1 {
      assert Join(lines, sep) == lines[0] + sep + Join(lines[1..], sep);
    }
  }

  /** A list written one achievement per line comes back as written. */
  lemma AchievementsReadBack(lines: seq<string>)
    requires |lines| > 0
    requires forall i :: 0 <= i < |lines| ==> '\n' !in lines[i] && HasText(lines[i])
    ensures AchievementsArray(Some(Join(lines, "\n"))) == lines
  {
    LinesSplit(lines);
    FilterKeepsAll(lines, HasText);
    JoinNotEmpty(lines, "\n");
  }

  lemma ThreeLines(a: string, b: string)
    ensures a + "\n\n" + b == Join([a, [], b], "\n")
  {
    JoinCons([], [b], "\n");
    JoinCons(a, [[], b], "\n");
    assert [a] + [[], b] == [a, [], b];
  }

  lemma {:induction false} FilterDropsMiddle(a: string, m: string, b: string, keep: string -> bool)
    requires keep(a) && !keep(m) && keep(b)
    ensures Filter([a, m, b], keep) == [a, b]
  {
    assert [a, m, b][1..] == [m, b];
    assert [m, b][1..] == [b];
    assert Filter([b], keep) == [b];
  }

  lemma ThreeLinesSplit(a: string, b: string)
    requires '\n' !in a && '\n' !in b
    ensures Split(a + "\n\n" + b, '\n') == [a, [], b]
  {
    ThreeLines(a, b);
    assert "\n" == ['\n'];
    SplitJoin([a, [], b], '\n');
  }

  /** Blank lines between achievements are dropped. */
  lemma BlankLineDropped(a: string, b: string)
    requires '\n' !in a && '\n' !in b && HasText(a) && HasText(b)
    ensures AchievementsArray(Some(a + "\n\n" + b)) == [a, b]
  {
    ThreeLinesSplit(a, b);
    assert !HasText([]);
    FilterDropsMiddle(a, [], b, HasText);
  }

  // ---------------------------------------------------------------- metadata

  /** `${experience || 'professional'}`. */
  function ExperienceText(experience: Option<string>): (r: string)
    ensures r != []
    ensures experience.Some? && experience.value != [] ==> r == experience.value
    ensures experience.None? || experience.value == [] ==> r == "professional"
  {
    if experience.None? || experience.value == [] then "professional" else experience.value
  }

  /** The structured-data description: `<profession> with <experience>
      experience`. */
  function Description(p: Profile): string {
    p.profession + " with " + ExperienceText(p.experience) + " experience"
  }

  /** The page's meta description. */
  function SeoDescription(p: Profile): string {
    "Professional profile of " + p.name + ", " + Description(p) + ". "
    + (if p.address.Some? && p.address.value != [] then "Based in " + p.address.value + "." else "")
  }

  /** The Open Graph description. */
  function OgDescription(p: Profile): string {
    "Professional " + Description(p)
  }

  /** The meta keywords: name, profession, the skills joined by `, `. */
  function Keywords(p: Profile): string {
    p.name + ", " + p.profession + ", " + Join(SkillsArray(p.skills), ", ") + ", professional profile"
  }

  /** The meta description carries the structured-data description. */
  lemma SeoDescriptionHasDescription(p: Profile)
    ensures IsSubstring(Description(p), SeoDescription(p))
  {
    var based := if p.address.Some? && p.address.value != [] then "Based in " + p.address.value + "." else "";
    var lead := "Professional profile of " + p.name + ", ";
    SubstringOfConcat(lead, Description(p), ". " + based);
    assert SeoDescription(p) == lead + Description(p) + (". " + based);
  }

  /** The Open Graph description carries it too. */
  lemma OgDescriptionHasDescription(p: Profile)
    ensures IsSubstring(Description(p), OgDescription(p))
  {
    SubstringOfConcat("Professional ", Description(p), []);
    assert "Professional " + Description(p) + [] == OgDescription(p);
  }

  /** The description names the experience; a missing or empty one gives
      exactly `<profession> with professional experience`. */
  lemma DescriptionNamesExperience(p: Profile)
    ensures p.experience.None? || p.experience == Some("") ==>
      Description(p) == p.profession + " with professional experience"
    ensures p.experience.None? || p.experience == Some("") ==>
      IsSubstring("professional", Description(p))
    ensures p.experience.Some? && p.experience.value != [] ==>
      IsSubstring(p.experience.value, Description(p))
  {
    SubstringOfConcat(p.profession + " with ", ExperienceText(p.experience), " experience");
  }

  /** Every skill of the profile appears in its keywords, and the skills
      part is the skills text as typed when typed as `a, b, c`. */
  lemma KeywordsListSkills(p: Profile)
    ensures forall s :: s in SkillsArray(p.skills) ==> IsSubstring(s, Keywords(p))
  {
    var skills := SkillsArray(p.skills);
    var j := Join(skills, ", ");
    SubstringOfConcat(p.name + ", " + p.profession + ", ", j, ", professional profile");
    assert Keywords(p) == p.name + ", " + p.profession + ", " + j + ", professional profile";
    forall s | s in skills ensures IsSubstring(s, Keywords(p)) {
      var i :| 0 <= i < |skills| && skills[i] == s;
      JoinHasPart(skills, ", ", i);
      SubstringTrans(s, j, Keywords(p));
    }
  }

  /** Skills typed as `a, b, c` appear in the keywords exactly as typed. */
  lemma KeywordsKeepTypedSkills(p: Profile, skills: seq<string>)
    requires |skills| > 0 && Join(skills, ", ") != []
    requires forall i :: 0 <= i < |skills| ==> ',' !in skills[i] && Trimmed(skills[i])
    requires p.skills == Some(Join(skills, ", "))
    ensures Keywords(p) == p.name + ", " + p.profession + ", " + p.skills.value + ", professional profile"
  {
    SkillsReadBack(skills);
  }
}
