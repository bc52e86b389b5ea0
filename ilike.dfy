/** The name filter of `getAllProfiles` (server/storage.ts) is PostgreSQL's
    `ilike` against the pattern `%search%`. This module gives LIKE matching its
    own definition (`%` any run, `_` any one character, a backslash escapes the
    next character), makes it case-insensitive over ASCII, and proves that for
    a search without those special characters it is a plain substring test. */
module Ilike {
  import opened Text

  /** LIKE: does all of `t` match all of pattern `p`? */
  predicate Like(t: string, p: string)
    decreases |t| + |p|
  {
    if p == [] then t == []
    else if p[0] == '%' then Like(t, p[1..]) || (t != [] && Like(t[1..], p))
    else if p[0] == '_' then t != [] && Like(t[1..], p[1..])
    else if p[0] == '\\' && |p| >= 2 then t != [] && t[0] == p[1] && Like(t[1..], p[2..])
    else t != [] && t[0] == p[0] && Like(t[1..], p[1..])
  }

  /** ILIKE: LIKE after lower-casing both sides. */
  predicate ILike(t: string, p: string) {
    Like(Lower(t), Lower(p))
  }

  /** `ilike(profiles.name, `%${search}%`)`. */
  predicate NameMatches(name: string, search: string) {
    ILike(name, "%" + search + "%")
  }

  /** A search text in which LIKE sees no special character. */
  predicate IsPlain(s: string) {
    forall i :: 0 <= i < |s| ==> s[i] != '%' && s[i] != '_' && s[i] != '\\'
  }

  lemma {:induction false} PercentMatchesAll(t: string)
    ensures Like(t, "%")
  {
    if t != [] {
      PercentMatchesAll(t[1..]);
    }
  }

  /** For a plain `q`, the pattern `q%` matches exactly the texts starting with `q`. */
  lemma {:induction false} PlainThenPercent(t: string, q: string)
    requires IsPlain(q)
    ensures Like(t, q + "%") <==> IsPrefix(q, t)
  {
    if q == [] {
      assert q + "%" == "%";
      PercentMatchesAll(t);
    } else {
      var p := q + "%";
      assert p[0] == q[0] && p[1..] == q[1..] + "%";
      if t != [] {
        PlainThenPercent(t[1..], q[1..]);
        if IsPrefix(q, t) {
          assert t[1..][..|q| - 1] == t[..|q|][1..];
        }
      }
    }
  }

  /** A leading `%` tries every suffix of the text. */
  lemma {:induction false} PercentThen(t: string, r: string)
    ensures Like(t, "%" + r) <==> exists i :: 0 <= i <= |t| && Like(t[i..], r)
  {
    var p := "%" + r;
    assert p[1..] == r;
    if t == [] {
      assert t[0..] == t;
    } else {
      PercentThen(t[1..], r);
      if Like(t, p) {
        if !Like(t, r) {
          var i :| 0 <= i <= |t[1..]| && Like(t[1..][i..], r);
          assert t[1..][i..] == t[i + 1..];
        } else {
          assert t[0..] == t;
        }
      } else {
        forall i | 0 <= i <= |t| ensures !Like(t[i..], r) {
          if i == 0 {
            assert t[0..] == t;
          } else {
            assert t[i..] == t[1..][i - 1..];
          }
        }
      }
    }
  }

  lemma LowerKeepsPlain(s: string)
    requires IsPlain(s)
    ensures IsPlain(Lower(s))
  {
  }

  lemma LowerPattern(search: string)
    ensures Lower("%" + search + "%") == "%" + Lower(search) + "%"
  {
  }

  /** For a search without `%`, `_` or a backslash, the name filter is a
      case-insensitive substring test on the name. */
  lemma {:induction false} PlainSearchIsSubstring(name: string, search: string)
    requires IsPlain(search)
    ensures NameMatches(name, search) <==> IsSubstring(Lower(search), Lower(name))
  {
    var t := Lower(name);
    var q := Lower(search);
    LowerPattern(search);
    LowerKeepsPlain(search);
    assert "%" + q + "%" == "%" + (q + "%");
    PercentThen(t, q + "%");
    if NameMatches(name, search) {
      var i :| 0 <= i <= |t| && Like(t[i..], q + "%");
      PlainThenPercent(t[i..], q);
    }
    if IsSubstring(q, t) {
      var i :| 0 <= i <= |t| && IsPrefix(q, t[i..]);
      PlainThenPercent(t[i..], q);
    }
  }

  /** The listing's search example: "ali" finds "Alice Johnson". */
  lemma SearchFindsAlice()
    ensures NameMatches("Alice Johnson", "ali")
  {
    PlainSearchIsSubstring("Alice Johnson", "ali");
    var a := Lower("Alice Johnson");
    assert Lower("ali") == "ali";
    assert a[0] == 'a' && a[1] == 'l' && a[2] == 'i';
    assert a[0..][..3] == "ali";
  }

  /** ... and does not find "Bob Smith", which has no `a` at all. */
  lemma SearchSkipsBob()
    ensures !NameMatches("Bob Smith", "ali")
  {
    PlainSearchIsSubstring("Bob Smith", "ali");
    var b := Lower("Bob Smith");
    assert b == "bob smith";
    assert Lower("ali") == "ali";
    assert forall j :: 0 <= j < |b| ==> b[j] != 'a';
    forall i | 0 <= i <= |b| ensures !IsPrefix("ali", b[i..]) {
      if i < |b| {
        assert b[i..][0] == b[i];
      }
    }
  }
}
