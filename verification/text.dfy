/** String helpers shared by the server and client models: the ECMAScript
    whitespace class, `trim`, `split` on one character, `join`, ASCII
    lower-casing and substring search (`includes`). */
module Text {

  /** ECMAScript WhiteSpace and LineTerminator code points: the set used both
      by `String.prototype.trim` and by the regular-expression class `\s`. */
  predicate IsSpace(c: char) {
    || c == '\t' || c == '\n' || c == '\U{000B}' || c == '\U{000C}' || c == '\r'
    || c == ' ' || c == '\U{00A0}' || c == '\U{1680}'
    || ('\U{2000}' <= c <= '\U{200A}')
    || c == '\U{2028}' || c == '\U{2029}' || c == '\U{202F}' || c == '\U{205F}'
    || c == '\U{3000}' || c == '\U{FEFF}'
  }

  predicate AllSpace(s: string) {
    forall i :: 0 <= i < |s| ==> IsSpace(s[i])
  }

  /** Neither end of `s` is whitespace: what `trim` produces. */
  predicate Trimmed(s: string) {
    s == [] || (!IsSpace(s[0]) && !IsSpace(s[|s| - 1]))
  }

  /** `r` sits at position `k` of `s` with nothing but whitespace before and
      after it. */
  predicate Surrounded(s: string, r: string, k: int) {
    0 <= k <= |s| - |r| && r == s[k..k + |r|] && AllSpace(s[..k]) && AllSpace(s[k + |r|..])
  }

  /** `s` with its leading whitespace removed: the longest suffix of `s` that
      does not start with whitespace. */
  function TrimStart(s: string): (r: string)
    ensures |r| <= |s| && r == s[|s| - |r|..]
    ensures r == [] || !IsSpace(r[0])
    ensures forall i :: 0 <= i < |s| - |r| ==> IsSpace(s[i])
  {
    if |s| > 0 && IsSpace(s[0]) then TrimStart(s[1..]) else s
  }

  /** `s` with its trailing whitespace removed: the longest prefix of `s` that
      does not end with whitespace. */
  function TrimEnd(s: string): (r: string)
    ensures |r| <= |s| && r == s[..|r|]
    ensures r == [] || !IsSpace(r[|r| - 1])
    ensures forall i :: |r| <= i < |s| ==> IsSpace(s[i])
  {
    if |s| > 0 && IsSpace(s[|s| - 1]) then TrimEnd(s[..|s| - 1]) else s
  }

  /** JavaScript's `String.prototype.trim`. */
  function Trim(s: string): (r: string)
    ensures Trimmed(r)
    ensures |r| <= |s|
    ensures r == [] <==> AllSpace(s)
    ensures forall c :: c in r ==> c in s
  {
    var a := TrimStart(s);
    var r := TrimEnd(a);
    TrimIsInfix(s, a, r);
    assert r == [] ==> a == [];
    assert r != [] ==> r[0] == a[0];
    r
  }

  /** What `Trim` returns lies inside `s` with only whitespace around it;
      with `Trimmed`, this pins the result down. */
  lemma TrimInfix(s: string)
    ensures exists k :: Surrounded(s, Trim(s), k)
  {
    TrimIsInfix(s, TrimStart(s), Trim(s));
  }

  lemma {:induction false} TrimIsInfix(s: string, a: string, r: string)
    requires a == TrimStart(s) && r == TrimEnd(a)
    ensures forall c :: c in r ==> c in s
    ensures exists k :: Surrounded(s, r, k)
  {
    var k := |s| - |a|;
    SpacePrefix(s, k);
    SpaceSuffix(a, |r|);
    SurroundedBy(s, a, r, k);
  }

  lemma SurroundedBy(s: string, a: string, r: string, k: nat)
    requires k <= |s| && a == s[k..] && |r| <= |a| && r == a[..|r|]
    requires AllSpace(s[..k]) && AllSpace(a[|r|..])
    ensures Surrounded(s, r, k)
    ensures forall c :: c in r ==> c in s
  {
    assert r == s[k..k + |r|];
    assert s[k + |r|..] == a[|r|..];
    forall c | c in r ensures c in s {
      var i :| 0 <= i < |r| && r[i] == c;
      assert s[k + i] == c;
    }
  }

  lemma SpacePrefix(s: string, k: nat)
    requires k <= |s| && forall i :: 0 <= i < k ==> IsSpace(s[i])
    ensures AllSpace(s[..k])
  {
    assert forall i :: 0 <= i < k ==> s[..k][i] == s[i];
  }

  lemma SpaceSuffix(s: string, k: nat)
    requires k <= |s| && forall i :: k <= i < |s| ==> IsSpace(s[i])
    ensures AllSpace(s[k..])
  {
    assert forall i :: 0 <= i < |s| - k ==> s[k..][i] == s[k + i];
  }

  lemma {:induction false} TrimStartOfTrimmed(s: string)
    requires s == [] || !IsSpace(s[0])
    ensures TrimStart(s) == s
  {
  }

  /** Trimming text that is already trimmed changes nothing. */
  lemma {:induction false} TrimOfTrimmed(s: string)
    requires Trimmed(s)
    ensures Trim(s) == s
  {
    TrimStartOfTrimmed(s);
    assert s == [] || !IsSpace(s[|s| - 1]);
  }

  /** Leading whitespace is invisible to `trim`. */
  lemma {:induction false} TrimSkipsLeadingSpace(c: char, s: string)
    requires IsSpace(c)
    ensures Trim([c] + s) == Trim(s)
  {
    assert ([c] + s)[1..] == s;
  }

  /** Position of the first occurrence of `c` in `s`. */
  function IndexOf(s: string, c: char): (i: nat)
    requires c in s
    ensures i < |s| && s[i] == c && c !in s[..i]
  {
    if s[0] == c then 0
    else
      var j := IndexOf(s[1..], c);
      assert s[..j + 1] == [s[0]] + s[1..][..j];
      j + 1
  }

  /** JavaScript's `s.split(sep)` for a one-character separator: the maximal
      separator-free pieces between separators, so always at least one piece
      (`"".split(",")` is `[""]`). */
  function Split(s: string, sep: char): (parts: seq<string>)
    ensures |parts| >= 1
    ensures forall k :: 0 <= k < |parts| ==> sep !in parts[k]
    decreases |s|
  {
    if sep !in s then [s]
    else
      var i := IndexOf(s, sep);
      [s[..i]] + Split(s[i + 1..], sep)
  }

  /** JavaScript's `parts.join(sep)`. */
  function Join(parts: seq<string>, sep: string): string
  {
    if |parts| == 0 then ""
    else if |parts| == 1 then parts[0]
    else parts[0] + sep + Join(parts[1..], sep)
  }

  /** Joining the pieces of a split with the separator rebuilds the text. */
  lemma {:induction false} JoinOfSplit(s: string, sep: char)
    ensures Join(Split(s, sep), [sep]) == s
    decreases |s|
  {
    if sep in s {
      var i := IndexOf(s, sep);
      var rest := Split(s[i + 1..], sep);
      JoinOfSplit(s[i + 1..], sep);
      assert Split(s, sep) == [s[..i]] + rest;
      assert ([s[..i]] + rest)[1..] == rest;
      assert s == s[..i] + [sep] + s[i + 1..];
    }
  }

  /** Splitting a join of separator-free pieces gives the pieces back. */
  lemma {:induction false} SplitOfJoin(parts: seq<string>, sep: char)
    requires |parts| >= 1
    requires forall k :: 0 <= k < |parts| ==> sep !in parts[k]
    ensures Split(Join(parts, [sep]), sep) == parts
  {
    if |parts| > 1 {
      var tail := Join(parts[1..], [sep]);
      assert Join(parts, [sep]) == parts[0] + [sep] + tail;
      SplitAppend(parts[0], tail, sep);
      SplitOfJoin(parts[1..], sep);
      assert parts == [parts[0]] + parts[1..];
    }
  }

  /** The first separator of `s` is at `i`: the first piece ends there. */
  lemma SplitAt(s: string, i: nat, sep: char)
    requires i < |s| && s[i] == sep && sep !in s[..i]
    ensures Split(s, sep) == [s[..i]] + Split(s[i + 1..], sep)
  {
  }

  /** A separator between two texts splits them apart: the pieces of the
      whole are the pieces of each side, in order. */
  lemma {:induction false} SplitAppend(a: string, b: string, sep: char)
    ensures Split(a + [sep] + b, sep) == Split(a, sep) + Split(b, sep)
    decreases |a|
  {
    var s := a + [sep] + b;
    if sep !in a {
      assert s[..|a|] == a && s[|a| + 1..] == b;
      SplitAt(s, |a|, sep);
      assert Split(a, sep) == [a];
    } else {
      var i := IndexOf(a, sep);
      var r := a[i + 1..];
      assert s[..i] == a[..i];
      assert s[i + 1..] == r + [sep] + b;
      SplitAt(s, i, sep);
      SplitAt(a, i, sep);
      SplitAppend(r, b, sep);
      Regroup(a[..i], Split(s, sep), Split(a, sep), Split(r + [sep] + b, sep), Split(r, sep), Split(b, sep));
    }
  }

  lemma Regroup<T>(x: T, whole: seq<T>, left: seq<T>, wholeRest: seq<T>, leftRest: seq<T>, right: seq<T>)
    requires whole == [x] + wholeRest && left == [x] + leftRest && wholeRest == leftRest + right
    ensures whole == left + right
  {
  }

  /** A character other than the separator in front of a text joins its
      first piece. */
  lemma SplitCons(c: char, s: string, sep: char)
    requires c != sep
    ensures Split([c] + s, sep) == [[c] + Split(s, sep)[0]] + Split(s, sep)[1..]
  {
    var t := [c] + s;
    if sep in s {
      var j := IndexOf(s, sep);
      assert t[j + 1] == sep && t[..j + 1] == [c] + s[..j];
      assert IndexOf(t, sep) == j + 1;
      assert t[j + 2..] == s[j + 1..];
    } else {
      assert sep !in t;
    }
  }

  function LowerChar(c: char): char {
    if 'A' <= c <= 'Z' then (c as int + 32) as char else c
  }

  /** ASCII lower-casing, used to compare text case-insensitively. */
  function Lower(s: string): (r: string)
    ensures |r| == |s|
    ensures forall i :: 0 <= i < |s| ==> r[i] == LowerChar(s[i])
  {
    if s == [] then [] else [LowerChar(s[0])] + Lower(s[1..])
  }

  /** `needle` appears in `s` starting at position `i`. */
  ghost predicate OccursAt(s: string, needle: string, i: int) {
    0 <= i && i + |needle| <= |s| && s[i..i + |needle|] == needle
  }

  /** JavaScript's `s.includes(needle)`. */
  predicate Contains(s: string, needle: string)
    ensures Contains(s, needle) <==> exists i :: OccursAt(s, needle, i)
    decreases |s|
  {
    if needle <= s then
      assert OccursAt(s, needle, 0);
      true
    else if s == [] then
      assert forall i :: !OccursAt(s, needle, i);
      false
    else
      var r := Contains(s[1..], needle);
      assert forall i :: OccursAt(s[1..], needle, i) <==> OccursAt(s, needle, i + 1) by {
        forall i ensures OccursAt(s[1..], needle, i) <==> OccursAt(s, needle, i + 1) {
          if 0 <= i && i + |needle| <= |s| - 1 {
            assert s[1..][i..i + |needle|] == s[i + 1..i + 1 + |needle|];
          }
        }
      }
      assert !OccursAt(s, needle, 0);
      assert (exists i :: OccursAt(s, needle, i)) ==> exists i :: OccursAt(s[1..], needle, i) by {
        if exists i :: OccursAt(s, needle, i) {
          var i :| OccursAt(s, needle, i);
          assert i != 0;
          assert OccursAt(s[1..], needle, i - 1);
        }
      }
      r
  }

  /** Case-insensitive substring search over ASCII letters: a regular
      expression made of literal characters, with the `i` flag. */
  predicate ContainsIgnoringCase(s: string, needle: string) {
    Contains(Lower(s), Lower(needle))
  }
}
