/** `generateSlug` (server/routes.ts): a chain of string rewrites that turns a
    display name into the URL slug of a profile. Each rewrite is one function,
    and `GenerateSlug` is their composition. */
module Slug {
  import opened Text

  /** The characters a slug may contain: `[a-z0-9-]`. */
  predicate IsSlugChar(c: char) {
    'a' <= c <= 'z' || '0' <= c <= '9' || c == '-'
  }

  /** The characters the second rewrite keeps: `[a-z0-9 -]`. */
  predicate IsKept(c: char) {
    IsSlugChar(c) || c == ' '
  }

  predicate NoDoubleHyphen(s: string) {
    forall i :: 0 <= i < |s| - 1 ==> !(s[i] == '-' && s[i + 1] == '-')
  }

  /** What every slug looks like: only `[a-z0-9-]`, never two hyphens in a row. */
  predicate IsSlug(s: string) {
    (forall i :: 0 <= i < |s| ==> IsSlugChar(s[i])) && NoDoubleHyphen(s)
  }

  /** `.replace(/[^a-z0-9 -]/g, '')`: drops every character outside `[a-z0-9 -]`
      and keeps the others in order. */
  function KeepSlugChars(s: string): (r: string)
    ensures |r| <= |s|
    ensures forall i :: 0 <= i < |r| ==> IsKept(r[i])
    ensures (forall i :: 0 <= i < |s| ==> IsKept(s[i])) ==> r == s
    ensures s != [] && IsKept(s[0]) ==> r != [] && r[0] == s[0]
    ensures s != [] && IsKept(s[|s| - 1]) ==> r != [] && r[|r| - 1] == s[|s| - 1]
  {
    if s == [] then []
    else if IsKept(s[0]) then [s[0]] + KeepSlugChars(s[1..])
    else KeepSlugChars(s[1..])
  }

  /** `.replace(/\s+/g, '-')`: every maximal run of white space becomes one
      hyphen (emitted at the run's last character); other characters stay. */
  function SpacesToHyphens(s: string): (r: string)
    ensures NoSpace(r)
    ensures forall i :: 0 <= i < |r| ==> r[i] == '-' || r[i] in s
    ensures NoSpace(s) ==> r == s
    ensures r == [] <==> s == []
    ensures s != [] ==> (r[0] == '-' <==> s[0] == '-' || IsSpace(s[0]))
    ensures s != [] ==> (r[|r| - 1] == '-' <==> s[|s| - 1] == '-' || IsSpace(s[|s| - 1]))
  {
    if s == [] then []
    else if IsSpace(s[0]) then
      if |s| > 1 && IsSpace(s[1]) then SpacesToHyphens(s[1..]) else "-" + SpacesToHyphens(s[1..])
    else [s[0]] + SpacesToHyphens(s[1..])
  }

  /** `.replace(/-+/g, '-')`: every maximal run of hyphens becomes one hyphen. */
  function CollapseHyphens(s: string): (r: string)
    ensures NoDoubleHyphen(r)
    ensures forall i :: 0 <= i < |r| ==> r[i] in s
    ensures NoDoubleHyphen(s) ==> r == s
    ensures r == [] <==> s == []
    ensures s != [] ==> (r[0] == '-' <==> s[0] == '-')
    ensures s != [] ==> (r[|r| - 1] == '-' <==> s[|s| - 1] == '-')
  {
    if s == [] then []
    else if s[0] == '-' && |s| > 1 && s[1] == '-' then CollapseHyphens(s[1..])
    else [s[0]] + CollapseHyphens(s[1..])
  }

  /** The four rewrites before the final `.trim()`. */
  function Rewritten(name: string): string {
    CollapseHyphens(SpacesToHyphens(KeepSlugChars(Lower(name))))
  }

  /** `generateSlug(name)`: lower-case, keep `[a-z0-9 -]`, turn white-space runs
      into a hyphen, collapse hyphen runs, trim. Whatever the name, the result
      holds only `[a-z0-9-]` and never two hyphens in a row. */
  function GenerateSlug(name: string): (slug: string)
    ensures IsSlug(slug)
  {
    RewrittenIsSlug(name);
    Trim(Rewritten(name))
  }

  lemma RewrittenIsSlug(name: string)
    ensures IsSlug(Rewritten(name))
    ensures NoSpace(Rewritten(name))
  {
    var k := KeepSlugChars(Lower(name));
    var h := SpacesToHyphens(k);
    var c := CollapseHyphens(h);
    forall i | 0 <= i < |h| ensures IsSlugChar(h[i]) {
      if h[i] != '-' {
        var j :| 0 <= j < |k| && k[j] == h[i];
        assert IsKept(k[j]) && !IsSpace(h[i]);
      }
    }
    forall i | 0 <= i < |c| ensures IsSlugChar(c[i]) {
      var j :| 0 <= j < |h| && h[j] == c[i];
    }
  }

  /** The final `.trim()` never changes anything: no white space survives the
      earlier rewrites. */
  lemma TrimIsNoOp(name: string)
    ensures GenerateSlug(name) == Rewritten(name)
  {
    RewrittenIsSlug(name);
  }

  /** Every stage leaves a slug alone, so a slug is its own slug. */
  lemma SlugIsFixedPoint(s: string)
    requires IsSlug(s)
    ensures GenerateSlug(s) == s
  {
    assert Lower(s) == s;
    assert NoSpace(s);
  }

  /** `generateSlug` is idempotent. */
  lemma GenerateSlugIdempotent(name: string)
    ensures GenerateSlug(GenerateSlug(name)) == GenerateSlug(name)
  {
    SlugIsFixedPoint(GenerateSlug(name));
  }

  /** Because the trim is a no-op, a name that starts with a space or a hyphen
      gives a slug that starts with a hyphen. */
  lemma LeadingHyphenSurvives(name: string)
    requires name != [] && (name[0] == ' ' || name[0] == '-')
    ensures GenerateSlug(name) != [] && GenerateSlug(name)[0] == '-'
  {
    TrimIsNoOp(name);
    var l := Lower(name);
    assert l[0] == name[0];
    var k := KeepSlugChars(l);
    assert k[0] == name[0];
  }

  /** Likewise at the other end: a name that ends with a space or a hyphen
      gives a slug that ends with a hyphen. */
  lemma TrailingHyphenSurvives(name: string)
    requires name != [] && (name[|name| - 1] == ' ' || name[|name| - 1] == '-')
    ensures var slug := GenerateSlug(name); slug != [] && slug[|slug| - 1] == '-'
  {
    TrimIsNoOp(name);
    var l := Lower(name);
    assert l[|l| - 1] == name[|name| - 1];
    var k := KeepSlugChars(l);
    assert k[|k| - 1] == name[|name| - 1];
  }
}
