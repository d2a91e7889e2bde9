/** The few Python `str` operations the core relies on, restricted to ASCII:
    `isdigit`, `isalpha`, `upper`, `lower`, `replace(c, '')`, `startswith`,
    `split(sep)` with a one-character separator, and its inverse `sep.join`. */
module PyStr {

  predicate IsDigit(c: char) { '0' <= c <= '9' }
  predicate IsAsciiUpper(c: char) { 'A' <= c <= 'Z' }
  predicate IsAsciiLower(c: char) { 'a' <= c <= 'z' }
  predicate IsAlpha(c: char) { IsAsciiUpper(c) || IsAsciiLower(c) }

  function Upper(c: char): char {
    if IsAsciiLower(c) then (c as int - 32) as char else c
  }

  function Lower(c: char): char {
    if IsAsciiUpper(c) then (c as int + 32) as char else c
  }

  /** `s.upper()` */
  function UpperStr(s: string): string {
    seq(|s|, i requires 0 <= i < |s| => Upper(s[i]))
  }

  /** `s.lower()` */
  function LowerStr(s: string): string {
    seq(|s|, i requires 0 <= i < |s| => Lower(s[i]))
  }

  /** `s.replace(c, '')` */
  function RemoveChar(s: string, c: char): string {
    if s == [] then [] else (if s[0] == c then [] else [s[0]]) + RemoveChar(s[1..], c)
  }

  /** `s.startswith(p)` */
  predicate StartsWith(s: string, p: string) {
    |p| <= |s| && s[..|p|] == p
  }

  /** `s.split(sep)` for a one-character separator: the maximal runs between separators. */
  function Split(s: string, sep: char): (parts: seq<string>)
    ensures |parts| >= 1
  {
    if s == [] then [""]
    else
      var rest := Split(s[1..], sep);
      if s[0] == sep then [""] + rest else [[s[0]] + rest[0]] + rest[1..]
  }

  /** `sep.join(parts)` */
  function Join(parts: seq<string>, sep: char): string
    requires |parts| >= 1
  {
    if |parts| == 1 then parts[0] else parts[0] + [sep] + Join(parts[1..], sep)
  }

  /** `replace(c, '')` leaves no `c` behind and keeps every other character. */
  lemma {:induction false} RemoveCharRemoves(s: string, c: char)
    ensures c !in RemoveChar(s, c)
    ensures forall x :: x in RemoveChar(s, c) <==> x in s && x != c
    ensures c !in s ==> RemoveChar(s, c) == s
  {
    if s != [] {
      RemoveCharRemoves(s[1..], c);
      assert s == [s[0]] + s[1..];
    }
  }

  /** Putting a character in front of the first piece puts it in front of the joined text. */
  lemma JoinPrepend(c: char, parts: seq<string>, sep: char)
    requires |parts| >= 1
    ensures Join([[c] + parts[0]] + parts[1..], sep) == [c] + Join(parts, sep)
  {
    var q := [[c] + parts[0]] + parts[1..];
    if |parts| > 1 {
      assert q[1..] == parts[1..];
      assert ([c] + parts[0]) + [sep] + Join(parts[1..], sep) == [c] + (parts[0] + [sep] + Join(parts[1..], sep));
    }
  }

  /** Joining the pieces of a split with the same separator gives back the string. */
  lemma {:induction false} JoinSplit(s: string, sep: char)
    ensures Join(Split(s, sep), sep) == s
  {
    if s != [] {
      var rest := Split(s[1..], sep);
      JoinSplit(s[1..], sep);
      assert s == [s[0]] + s[1..];
      if s[0] == sep {
        assert ([""] + rest)[1..] == rest;
      } else {
        JoinPrepend(s[0], rest, sep);
      }
    }
  }

  /** No piece of a split contains the separator. */
  lemma {:induction false} SplitPartsFree(s: string, sep: char)
    ensures forall k :: 0 <= k < |Split(s, sep)| ==> sep !in Split(s, sep)[k]
  {
    if s != [] {
      SplitPartsFree(s[1..], sep);
    }
  }

  /** A split has two or more pieces exactly when the separator occurs. */
  lemma {:induction false} SplitMany(s: string, sep: char)
    ensures sep in s <==> |Split(s, sep)| >= 2
  {
    if s != [] {
      SplitMany(s[1..], sep);
      assert s == [s[0]] + s[1..];
    }
  }

  /** The first piece is the text up to the first separator (or all of it). */
  lemma {:induction false} SplitFirstIsPrefix(s: string, sep: char)
    ensures exists k :: 0 <= k <= |s| && Split(s, sep)[0] == s[..k] && (k == |s| || s[k] == sep)
  {
    if s == [] {
      assert Split(s, sep)[0] == s[..0];
    } else if s[0] == sep {
      assert Split(s, sep)[0] == s[..0];
    } else {
      SplitFirstIsPrefix(s[1..], sep);
      var k :| 0 <= k <= |s[1..]| && Split(s[1..], sep)[0] == s[1..][..k] && (k == |s[1..]| || s[1..][k] == sep);
      assert [s[0]] + s[1..][..k] == s[..k + 1];
    }
  }

  /** The first piece, by its length: the prefix up to the first separator or the end. */
  lemma FirstPiece(s: string, sep: char)
    ensures var p := Split(s, sep)[0];
      |p| <= |s| && s[..|p|] == p && sep !in p && (|p| == |s| || s[|p|] == sep)
  {
    SplitFirstIsPrefix(s, sep);
    SplitPartsFree(s, sep);
  }

  /** Every piece of a split is a contiguous slice of the string. */
  lemma {:induction false} SplitPartIsSlice(s: string, sep: char, k: nat)
    requires k < |Split(s, sep)|
    ensures exists a, b :: 0 <= a <= b <= |s| && s[a..b] == Split(s, sep)[k]
  {
    if s == [] {
      assert s[0..0] == Split(s, sep)[0];
    } else if k == 0 {
      SplitFirstIsPrefix(s, sep);
      var j :| 0 <= j <= |s| && Split(s, sep)[0] == s[..j] && (j == |s| || s[j] == sep);
      assert s[0..j] == Split(s, sep)[k];
    } else {
      var rest := Split(s[1..], sep);
      var kr := if s[0] == sep then k - 1 else k;
      assert Split(s, sep)[k] == rest[kr];
      SplitPartIsSlice(s[1..], sep, kr);
      var a, b :| 0 <= a <= b <= |s[1..]| && s[1..][a..b] == rest[kr];
      assert s[a + 1..b + 1] == s[1..][a..b];
    }
  }

  /** The last piece is the text after some separator, or all of it. */
  lemma {:induction false} SplitLastAfterSep(s: string, sep: char)
    ensures var parts := Split(s, sep);
      exists a :: 0 <= a <= |s| && parts[|parts| - 1] == s[a..] && (a == 0 || s[a - 1] == sep)
  {
    var parts := Split(s, sep);
    if s == [] {
      assert parts[0] == s[0..];
    } else {
      var rest := Split(s[1..], sep);
      SplitLastAfterSep(s[1..], sep);
      var a :| 0 <= a <= |s[1..]| && rest[|rest| - 1] == s[1..][a..] && (a == 0 || s[1..][a - 1] == sep);
      assert s[1..][a..] == s[a + 1..];
      if s[0] == sep || |rest| > 1 {
        assert parts[|parts| - 1] == rest[|rest| - 1];
        if a > 0 {
          assert s[a] == s[1..][a - 1];
        } else if s[0] != sep {
          SplitMany(s[1..], sep);
          SplitPartsFree(s[1..], sep);
          assert false;
        }
        assert parts[|parts| - 1] == s[a + 1..];
      } else {
        SplitMany(s[1..], sep);
        SplitPartsFree(s[1..], sep);
        assert a == 0;
        assert parts[|parts| - 1] == s[0..];
      }
    }
  }

  /** The last piece is the text after the last separator, or all of it when there is none. */
  lemma SplitLastIsSuffix(s: string, sep: char)
    ensures var parts := Split(s, sep);
      exists a :: 0 <= a <= |s| && parts[|parts| - 1] == s[a..] && (a == 0 || s[a - 1] == sep)
        && (a == 0 <==> sep !in s)
  {
    var parts := Split(s, sep);
    SplitLastAfterSep(s, sep);
    var a :| 0 <= a <= |s| && parts[|parts| - 1] == s[a..] && (a == 0 || s[a - 1] == sep);
    SplitPartsFree(s, sep);
    assert sep !in s[a..];
    if a > 0 {
      assert s[a - 1] in s;
    } else {
      assert s[0..] == s;
    }
  }

  /** Splitting at the first separator: the text before it, then the split of the text after it. */
  lemma {:induction false} SplitAtFirst(s: string, sep: char, k: nat)
    requires k < |s| && s[k] == sep && sep !in s[..k]
    ensures Split(s, sep) == [s[..k]] + Split(s[k + 1..], sep)
  {
    if k > 0 {
      assert s[0] == s[..k][0];
      assert s[1..][..k - 1] == s[1..k];
      assert forall c :: c in s[1..][..k - 1] ==> c in s[..k];
      SplitAtFirst(s[1..], sep, k - 1);
      assert s[1..][k..] == s[k + 1..];
      assert [s[0]] + s[1..k] == s[..k];
    }
  }

  /** Lower-casing forgets any earlier upper-casing. */
  lemma LowerUpperStr(s: string)
    ensures LowerStr(UpperStr(s)) == LowerStr(s)
  {
  }

  /** Lower-casing is idempotent. */
  lemma LowerLowerStr(s: string)
    ensures LowerStr(LowerStr(s)) == LowerStr(s)
  {
  }
}
