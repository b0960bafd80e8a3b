/**
 * Display names of release lines.  Each interval of a release line is
 * labelled with the project name, a space, and the registry key with its
 * first letter `v` removed (JavaScript's `String.prototype.replace` with a
 * string pattern replaces the first occurrence only).
 */
module Names {

  /** `s` with its first occurrence of `c` deleted; `s` itself when `c` does not occur. */
  function RemoveFirst(s: string, c: char): (r: string)
    ensures c !in s ==> r == s
    ensures c in s ==> |r| == |s| - 1
  {
    if |s| == 0 then s
    else if s[0] == c then s[1..]
    else [s[0]] + RemoveFirst(s[1..], c)
  }

  /** Exactly one `c` is removed when there is one: no other character is lost or gained. */
  lemma {:induction false} RemoveFirstMultiset(s: string, c: char)
    ensures multiset(RemoveFirst(s, c)) + (if c in s then multiset{c} else multiset{}) == multiset(s)
  {
    if |s| > 0 {
      assert s == [s[0]] + s[1..];
      if s[0] != c {
        RemoveFirstMultiset(s[1..], c);
      }
    }
  }

  /** The label given to every interval of the release line stored under `key`. */
  function DisplayName(projectName: string, key: string): string
  {
    projectName + " " + RemoveFirst(key, 'v')
  }

  /**
   * Only the first occurrence is removed: whatever precedes it (which holds no
   * `c`) and everything after it, later occurrences included, are kept as they are.
   */
  lemma {:induction false} RemoveFirstSplit(prefix: string, c: char, suffix: string)
    requires c !in prefix
    ensures RemoveFirst(prefix + [c] + suffix, c) == prefix + suffix
  {
    if |prefix| == 0 {
      assert prefix + [c] + suffix == [c] + suffix;
    } else {
      var s := prefix + [c] + suffix;
      assert s[0] == prefix[0];
      assert s[1..] == prefix[1..] + [c] + suffix;
      RemoveFirstSplit(prefix[1..], c, suffix);
      assert prefix == [prefix[0]] + prefix[1..];
    }
  }

  /** The usual registry key shape `v<digits>` is shown as the bare number. */
  lemma DisplayNameOfVersionKey(projectName: string, digits: string)
    requires 'v' !in digits
    ensures DisplayName(projectName, "v" + digits) == projectName + " " + digits
  {
    RemoveFirstSplit([], 'v', digits);
    assert [] + ['v'] + digits == "v" + digits;
  }
}
