/** The string operations of the Java library that the core relies on:
    `String.contains`, `StringUtils.substringAfter`, `String.equalsIgnoreCase`
    and `StringUtils.containsIgnoreCase`. Case is folded for ASCII letters. */
module Strings {
  import opened Common

  /** `sep` occurs in `s` starting at index `i`. */
  predicate OccursAt(s: string, sep: string, i: int) {
    0 <= i && i + |sep| <= |s| && s[i..i + |sep|] == sep
  }

  /** Dropping the first character shifts every occurrence one place left. */
  lemma OccursShift(s: string, sep: string, i: int)
    requires 1 <= i && |s| >= 1
    ensures OccursAt(s, sep, i) <==> OccursAt(s[1..], sep, i - 1)
  {
    if i + |sep| <= |s| {
      assert s[1..][i - 1..i - 1 + |sep|] == s[i..i + |sep|];
    }
  }

  /** The index of the first occurrence of `sep` in `s`, if any
      (`String.indexOf`, with `String.contains` being `IndexOf(..).Some?`). */
  function IndexOf(s: string, sep: string): (r: Option<nat>)
    ensures r.Some? ==> OccursAt(s, sep, r.value)
    ensures r.Some? ==> forall i :: 0 <= i < r.value ==> !OccursAt(s, sep, i)
    ensures r.None? ==> forall i :: 0 <= i ==> !OccursAt(s, sep, i)
    decreases |s|
  {
    if |s| < |sep| then None
    else if s[..|sep|] == sep then Some(0)
    else
      var rest := IndexOf(s[1..], sep);
      assert forall i :: 1 <= i ==> (OccursAt(s, sep, i) <==> OccursAt(s[1..], sep, i - 1)) by {
        forall i | 1 <= i {
          OccursShift(s, sep, i);
        }
      }
      if rest.None? then None else Some(rest.value + 1)
  }

  /** `StringUtils.substringAfter(s, sep)`: the text after the first
      occurrence of `sep`, or the empty string when there is none. */
  function SubstringAfter(s: string, sep: string): (r: string)
    ensures IndexOf(s, sep).None? ==> r == ""
    ensures IndexOf(s, sep).Some? ==> s == s[..IndexOf(s, sep).value] + sep + r
  {
    match IndexOf(s, sep)
    case None => ""
    case Some(i) =>
      assert s == s[..i] + s[i..i + |sep|] + s[i + |sep|..];
      s[i + |sep|..]
  }

  /** Lower-case of an ASCII letter; every other character is unchanged. */
  function Lower(c: char): char {
    if 'A' <= c <= 'Z' then (c as int + 32) as char else c
  }

  /** `String.equalsIgnoreCase`. */
  predicate EqualsIgnoreCase(a: string, b: string) {
    |a| == |b| && forall i :: 0 <= i < |a| ==> Lower(a[i]) == Lower(b[i])
  }

  /** `t` occurs in `s` at index `i` when case is ignored. */
  predicate OccursIgnoreCaseAt(s: string, t: string, i: int) {
    0 <= i && i + |t| <= |s| && EqualsIgnoreCase(s[i..i + |t|], t)
  }

  /** `StringUtils.containsIgnoreCase(s, t)`: tries every start position from
      the left, as the library's loop over `regionMatches` does. */
  function ContainsIgnoreCase(s: string, t: string): (r: bool)
    ensures r <==> exists i :: OccursIgnoreCaseAt(s, t, i)
    decreases |s|
  {
    if |s| < |t| then
      assert forall i :: !OccursIgnoreCaseAt(s, t, i);
      false
    else if EqualsIgnoreCase(s[..|t|], t) then
      assert OccursIgnoreCaseAt(s, t, 0);
      true
    else
      var rest := ContainsIgnoreCase(s[1..], t);
      assert rest ==> exists i :: OccursIgnoreCaseAt(s, t, i) by {
        if rest {
          var k :| OccursIgnoreCaseAt(s[1..], t, k);
          assert s[1..][k..k + |t|] == s[k + 1..k + 1 + |t|];
          assert OccursIgnoreCaseAt(s, t, k + 1);
        }
      }
      assert (exists i :: OccursIgnoreCaseAt(s, t, i)) ==> rest by {
        if exists i :: OccursIgnoreCaseAt(s, t, i) {
          var i :| OccursIgnoreCaseAt(s, t, i);
          assert i != 0;
          assert s[1..][i - 1..i - 1 + |t|] == s[i..i + |t|];
          assert OccursIgnoreCaseAt(s[1..], t, i - 1);
        }
      }
      rest
  }
}
