/**
 * The few Python `str` operations the modelled code relies on, written out
 * over `seq<char>`: `isspace`, `strip`, `splitlines`, splitting at a set of
 * single-character separators, `replace` of one character, `join`,
 * `endswith` and `lower`.
 */
module Text {

  /** `c.isspace()` in Python: the characters `str.strip()` removes. */
  predicate IsSpace(c: char) {
    || c == ' ' || c == '\t' || c == '\n' || c == '\r' || c == '\U{B}' || c == '\U{C}'
    || ('\U{1C}' <= c <= '\U{1F}') || c == '\U{85}' || c == '\U{A0}' || c == '\U{1680}'
    || ('\U{2000}' <= c <= '\U{200A}') || c == '\U{2028}' || c == '\U{2029}'
    || c == '\U{202F}' || c == '\U{205F}' || c == '\U{3000}'
  }

  /** The characters at which `str.splitlines()` breaks a string. */
  predicate IsLineBoundary(c: char) {
    || c == '\n' || c == '\r' || c == '\U{B}' || c == '\U{C}'
    || c == '\U{1C}' || c == '\U{1D}' || c == '\U{1E}' || c == '\U{85}'
    || c == '\U{2028}' || c == '\U{2029}'
  }

  /** A string that `strip()` leaves as it is. */
  predicate IsStripped(s: string) {
    s == [] || (!IsSpace(s[0]) && !IsSpace(s[|s| - 1]))
  }

  /** `s.lstrip()`. */
  function TrimStart(s: string): (r: string)
    ensures |r| <= |s| && r == s[|s| - |r|..]
    ensures r == [] || !IsSpace(r[0])
    ensures forall i :: 0 <= i < |s| - |r| ==> IsSpace(s[i])
  {
    if s != [] && IsSpace(s[0]) then TrimStart(s[1..]) else s
  }

  /** `s.rstrip()`. */
  function TrimEnd(s: string): (r: string)
    ensures |r| <= |s| && r == s[..|r|]
    ensures r == [] || !IsSpace(r[|r| - 1])
    ensures forall i :: |r| <= i < |s| ==> IsSpace(s[i])
  {
    if s != [] && IsSpace(s[|s| - 1]) then TrimEnd(s[..|s| - 1]) else s
  }

  /** `s.strip()`: the longest slice of `s` that neither starts nor ends with whitespace. */
  function Strip(s: string): (r: string)
    ensures IsStripped(r)
    ensures exists a, b :: 0 <= a <= b <= |s| && r == s[a..b]
                        && (forall i :: 0 <= i < a ==> IsSpace(s[i]))
                        && (forall i :: b <= i < |s| ==> IsSpace(s[i]))
  {
    var t := TrimStart(s);
    var r := TrimEnd(t);
    assert r == s[|s| - |t|..|s| - |t| + |r|];
    r
  }

  lemma StripKeepsStripped(s: string)
    requires IsStripped(s)
    ensures Strip(s) == s
  {
    assert TrimStart(s) == s;
  }

  /** Removing whitespace at both ends never brings a character in that was not there. */
  lemma StripKeepsOut(s: string, c: char)
    requires forall i :: 0 <= i < |s| ==> s[i] != c
    ensures forall i :: 0 <= i < |Strip(s)| ==> Strip(s)[i] != c
  {
    var t := TrimStart(s);
    var r := TrimEnd(t);
    assert Strip(s) == r;
    forall i | 0 <= i < |r| ensures r[i] != c {
      assert r[i] == t[i] == s[|s| - |t| + i];
    }
  }

  /** Number of characters of `s` that lie in `seps`. */
  function CountIn(s: string, seps: set<char>): nat {
    if s == [] then 0 else (if s[0] in seps then 1 else 0) + CountIn(s[1..], seps)
  }

  /** Counting distributes over concatenation. */
  lemma {:induction false} CountInConcat(a: string, b: string, seps: set<char>)
    ensures CountIn(a + b, seps) == CountIn(a, seps) + CountIn(b, seps)
  {
    if a == [] {
      assert a + b == b;
    } else {
      assert (a + b)[1..] == a[1..] + b;
      CountInConcat(a[1..], b, seps);
    }
  }

  /** A string without separators counts none. */
  lemma {:induction false} CountInNone(s: string, seps: set<char>)
    requires forall i :: 0 <= i < |s| ==> s[i] !in seps
    ensures CountIn(s, seps) == 0
  {
    if s != [] {
      CountInNone(s[1..], seps);
    }
  }

  /** Whitespace counts no separator that is not whitespace. */
  lemma SpaceCountsNone(w: string, seps: set<char>)
    requires forall c :: c in seps ==> !IsSpace(c)
    requires forall i :: 0 <= i < |w| ==> IsSpace(w[i])
    ensures CountIn(w, seps) == 0
  {
    CountInNone(w, seps);
  }

  /** Stripping removes only whitespace, so it keeps every separator that is not whitespace. */
  lemma StripKeepsCount(s: string, seps: set<char>)
    requires forall c :: c in seps ==> !IsSpace(c)
    ensures CountIn(Strip(s), seps) == CountIn(s, seps)
  {
    var t := TrimStart(s);
    var r := TrimEnd(t);
    CountInSplit(s, |s| - |t|, seps);
    CountInSplit(t, |r|, seps);
    SpaceCountsNone(s[..|s| - |t|], seps);
    SpaceCountsNone(t[|r|..], seps);
  }

  /** Counting a string counts its two halves. */
  lemma CountInSplit(s: string, k: nat, seps: set<char>)
    requires k <= |s|
    ensures CountIn(s, seps) == CountIn(s[..k], seps) + CountIn(s[k..], seps)
  {
    assert s == s[..k] + s[k..];
    CountInConcat(s[..k], s[k..], seps);
  }

  /**
   * `re.split("[...]", s)` for a character class `seps`: the pieces between
   * separators, empty pieces included.
   */
  function SplitAt(s: string, seps: set<char>): (r: seq<string>)
    ensures |r| == CountIn(s, seps) + 1
    ensures forall k, j :: 0 <= k < |r| && 0 <= j < |r[k]| ==> r[k][j] !in seps
  {
    if s == [] then [""]
    else
      var rest := SplitAt(s[1..], seps);
      if s[0] in seps then [""] + rest else [[s[0]] + rest[0]] + rest[1..]
  }

  /** A string without separators is one piece. */
  lemma {:induction false} SplitAtNoSeparator(s: string, seps: set<char>)
    requires forall i :: 0 <= i < |s| ==> s[i] !in seps
    ensures SplitAt(s, seps) == [s]
  {
    if s != [] {
      SplitAtNoSeparator(s[1..], seps);
      assert [s[0]] + s[1..] == s;
    }
  }

  /** A separator ends the piece before it. */
  lemma {:induction false} SplitAtPiece(a: string, c: char, b: string, seps: set<char>)
    requires c in seps
    requires forall i :: 0 <= i < |a| ==> a[i] !in seps
    ensures SplitAt(a + [c] + b, seps) == [a] + SplitAt(b, seps)
  {
    var s := a + [c] + b;
    if a == [] {
      assert s[1..] == b;
    } else {
      assert s[1..] == a[1..] + [c] + b;
      SplitAtPiece(a[1..], c, b, seps);
      assert [a[0]] + a[1..] == a;
    }
  }

  /** A leading blank goes. */
  lemma StripLeadingSpace(c: char, s: string)
    requires IsSpace(c)
    requires s != [] && IsStripped(s)
    ensures Strip([c] + s) == s
  {
    assert ([c] + s)[1..] == s;
    assert TrimStart(s) == s;
    assert TrimStart([c] + s) == s;
  }

  /** Splitting never brings a character in that was not there. */
  lemma {:induction false} SplitAtKeepsOut(s: string, seps: set<char>, c: char)
    requires forall i :: 0 <= i < |s| ==> s[i] != c
    ensures forall k, j :: 0 <= k < |SplitAt(s, seps)| && 0 <= j < |SplitAt(s, seps)[k]| ==> SplitAt(s, seps)[k][j] != c
  {
    if s != [] {
      SplitAtKeepsOut(s[1..], seps, c);
      var rest := SplitAt(s[1..], seps);
      if s[0] !in seps {
        var r := SplitAt(s, seps);
        assert r == [[s[0]] + rest[0]] + rest[1..];
        forall k, j | 0 <= k < |r| && 0 <= j < |r[k]| ensures r[k][j] != c {
          if k == 0 {
            if j > 0 { assert r[0][j] == rest[0][j - 1]; }
          } else {
            assert r[k] == rest[k];
          }
        }
      }
    }
  }

  /** `sep.join(items)`. */
  function Join(sep: string, items: seq<string>): string {
    if |items| == 0 then ""
    else if |items| == 1 then items[0]
    else items[0] + sep + Join(sep, items[1..])
  }

  /** `s` with every character of `seps` replaced by `c`. */
  function Normalize(s: string, seps: set<char>, c: char): (r: string)
    ensures |r| == |s|
  {
    if s == [] then [] else [if s[0] in seps then c else s[0]] + Normalize(s[1..], seps, c)
  }

  /** Joining the pieces back with one separator gives the input, separators unified. */
  lemma {:induction false} SplitAtJoin(s: string, seps: set<char>, c: char)
    requires c in seps
    ensures Join([c], SplitAt(s, seps)) == Normalize(s, seps, c)
  {
    if s != [] {
      var rest := SplitAt(s[1..], seps);
      SplitAtJoin(s[1..], seps, c);
      if s[0] in seps {
        assert SplitAt(s, seps) == [""] + rest;
      } else {
        assert SplitAt(s, seps) == [[s[0]] + rest[0]] + rest[1..];
        if |rest| > 1 {
          assert Join([c], rest) == rest[0] + [c] + Join([c], rest[1..]);
          assert ([s[0]] + rest[0]) + [c] + Join([c], rest[1..]) == [s[0]] + Join([c], rest);
        }
      }
    }
  }

  /** Index of the first line boundary of `s`, or `|s|`. */
  function LineEnd(s: string): (k: nat)
    ensures k <= |s|
    ensures k < |s| ==> IsLineBoundary(s[k])
    ensures forall j :: 0 <= j < k ==> !IsLineBoundary(s[j])
  {
    if s == [] || IsLineBoundary(s[0]) then 0 else 1 + LineEnd(s[1..])
  }

  /**
   * `s.splitlines()`: the lines of `s` without their line breaks; "\r\n"
   * counts as one break, and a break at the very end opens no further line.
   */
  function SplitLines(s: string): (r: seq<string>)
    ensures s == [] <==> r == []
    ensures forall i, j :: 0 <= i < |r| && 0 <= j < |r[i]| ==> !IsLineBoundary(r[i][j])
    decreases |s|
  {
    if s == [] then []
    else
      var k := LineEnd(s);
      if k == |s| then [s]
      else
        var next := if s[k] == '\r' && k + 1 < |s| && s[k + 1] == '\n' then k + 2 else k + 1;
        [s[..k]] + SplitLines(s[next..])
  }

  /** A non-empty string without line breaks is a single line. */
  lemma SingleLine(s: string)
    requires s != []
    requires forall j :: 0 <= j < |s| ==> !IsLineBoundary(s[j])
    ensures SplitLines(s) == [s]
  {
    assert LineEnd(s) == |s|;
  }

  /** The first and last characters of a join of non-empty items are those of its first and last item. */
  lemma {:induction false} JoinEnds(sep: string, items: seq<string>)
    requires items != []
    requires forall i :: 0 <= i < |items| ==> items[i] != []
    ensures var s := Join(sep, items);
            s != [] && s[0] == items[0][0] && s[|s| - 1] == items[|items| - 1][|items[|items| - 1]| - 1]
  {
    if |items| > 1 {
      JoinEnds(sep, items[1..]);
    }
  }

  /** Lines joined with "\n" split back into the same lines. */
  lemma {:induction false} SplitLinesJoin(items: seq<string>)
    requires forall i :: 0 <= i < |items| ==> items[i] != []
    requires forall i, j :: 0 <= i < |items| && 0 <= j < |items[i]| ==> !IsLineBoundary(items[i][j])
    ensures SplitLines(Join("\n", items)) == items
  {
    if |items| == 1 {
      SingleLine(items[0]);
    } else if |items| > 1 {
      var a, rest := items[0], Join("\n", items[1..]);
      var s := Join("\n", items);
      assert s == a + "\n" + rest;
      var k := LineEnd(s);
      assert k == |a| by {
        assert IsLineBoundary(s[|a|]);
        assert forall j :: 0 <= j < |a| ==> s[j] == a[j];
      }
      assert s[..k] == a && s[k + 1..] == rest;
      SplitLinesJoin(items[1..]);
    }
  }

  /** `s.replace(a, b)` for single characters `a` and `b`. */
  function Replace(s: string, a: char, b: char): (r: string)
    ensures |r| == |s|
    ensures forall i :: 0 <= i < |s| ==> r[i] == (if s[i] == a then b else s[i])
  {
    if s == [] then [] else [if s[0] == a then b else s[0]] + Replace(s[1..], a, b)
  }

  /** `s.endswith(suffix)`. */
  predicate EndsWith(s: string, suffix: string) {
    |suffix| <= |s| && s[|s| - |suffix|..] == suffix
  }

  /** `c.lower()` for ASCII letters; every other character is left as it is. */
  function LowerChar(c: char): char {
    if 'A' <= c <= 'Z' then (c as int + 32) as char else c
  }

  /** `s.lower()`, restricted to ASCII letters as `LowerChar` says. */
  function Lower(s: string): (r: string)
    ensures |r| == |s|
    ensures forall i :: 0 <= i < |s| ==> r[i] == LowerChar(s[i])
  {
    if s == [] then [] else [LowerChar(s[0])] + Lower(s[1..])
  }
}
