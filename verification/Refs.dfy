// Names of branches and tags (crates/repo/src/repository.rs).
module Refs {

  predicate StartsWith(s: string, prefix: string) {
    |prefix| <= |s| && s[..|prefix|] == prefix
  }

  predicate Contains(s: string, part: string) {
    StartsWith(s, part) || (s != [] && Contains(s[1..], part))
  }

  /** `safe_ref_name`: usable as a path below the directory of refs. */
  predicate SafeRefName(name: string) {
    && name != [] && |name| <= 255
    && name[0] != '/' && name[0] != '.' && name[|name| - 1] != '/'
    && !Contains(name, "..") && '\\' !in name && '\0' !in name
  }

  lemma {:induction false} ContainsMeans(s: string, part: string)
    ensures Contains(s, part) <==> exists i :: PartAt(s, part, i)
    decreases |s|
  {
    assert PartAt(s, part, 0) <==> StartsWith(s, part);
    if s != [] {
      ContainsMeans(s[1..], part);
      if i :| PartAt(s[1..], part, i) {
        assert s[i + 1..][..|part|] == s[1..][i..][..|part|];
        assert PartAt(s, part, i + 1);
      }
      if i :| PartAt(s, part, i) && i > 0 {
        assert s[1..][i - 1..][..|part|] == s[i..][..|part|];
        assert PartAt(s[1..], part, i - 1);
      }
    }
  }

  predicate PartAt(s: string, part: string, i: int) {
    0 <= i && i + |part| <= |s| && s[i..][..|part|] == part
  }

  /** Two dots in a row. */
  predicate Dotted(s: string, i: int) {
    0 <= i < |s| - 1 && s[i] == '.' && s[i + 1] == '.'
  }

  lemma DottedContains(s: string)
    ensures Contains(s, "..") <==> exists i :: Dotted(s, i)
  {
    ContainsMeans(s, "..");
    forall i ensures PartAt(s, "..", i) <==> Dotted(s, i) {
      if 0 <= i && i + 2 <= |s| { assert s[i..][..2] == [s[i], s[i + 1]]; }
    }
  }

  /** A safe name has 1 to 255 characters, no backslash, no NUL and no two dots in a
      row, does not begin with a slash or a dot and does not end with a slash. */
  lemma SafeExact(name: string)
    ensures SafeRefName(name) <==>
            && 1 <= |name| <= 255
            && name[0] !in {'/', '.'} && name[|name| - 1] != '/'
            && (forall i :: 0 <= i < |name| ==> name[i] !in {'\\', '\0'})
            && forall i :: !Dotted(name, i)
  {
    DottedContains(name);
  }

  /** `part` stands in the name between slashes or at its ends. */
  ghost predicate Component(name: string, before: string, part: string, after: string) {
    && name == before + part + after
    && (before == [] || before[|before| - 1] == '/')
    && (after == [] || after[0] == '/')
  }

  /** No component of a safe name leads upwards. */
  lemma SafeStaysBelow(name: string, before: string, part: string, after: string)
    requires SafeRefName(name) && Component(name, before, part, after)
    ensures part != ".."
  {
    DottedContains(name);
    if part == ".." { assert Dotted(name, |before|); }
  }

  /** Safe names may be nested, up to the length allowed. */
  lemma SafeNested(a: string, b: string)
    requires SafeRefName(a) && SafeRefName(b)
    ensures SafeRefName(a + "/" + b) <==> |a| + 1 + |b| <= 255
  {
    var name := a + "/" + b;
    DottedContains(a);
    DottedContains(b);
    DottedContains(name);
    assert name[|name| - 1] == b[|b| - 1];
    forall i ensures !Dotted(name, i) {
      if 0 <= i < |a| - 1 {
        assert name[i] == a[i] && name[i + 1] == a[i + 1] && !Dotted(a, i);
      } else if |a| < i < |name| - 1 {
        assert name[i] == b[i - |a| - 1] && name[i + 1] == b[i - |a|] && !Dotted(b, i - |a| - 1);
      } else if i == |a| || i == |a| - 1 {
        assert name[|a|] == '/';
      }
    }
  }
}
