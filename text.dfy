/** String operations that the source takes from Python's `str`. */
module Text {

  /** `s.replace(c, "")` for a one-character `c`. */
  function Remove(s: string, c: char): string {
    if s == [] then []
    else (if s[0] == c then [] else [s[0]]) + Remove(s[1..], c)
  }

  /**
   * Removing `c` keeps exactly the other characters, each as often as it
   * occurs, and is the identity when `c` is absent.
   */
  lemma {:induction false} RemoveKeepsOthers(s: string, c: char)
    ensures forall d :: d in Remove(s, c) <==> d in s && d != c
    ensures multiset(Remove(s, c)) == multiset(s)[c := 0]
    ensures c !in s ==> Remove(s, c) == s
  {
    if s != [] {
      RemoveKeepsOthers(s[1..], c);
      assert s == [s[0]] + s[1..];
      assert multiset(s) == multiset{s[0]} + multiset(s[1..]);
    }
  }

  /**
   * Removal works character by character and keeps the order of what it
   * keeps: it distributes over concatenation, and on one character it keeps
   * that character exactly when it is not `c`.
   */
  lemma {:induction false} RemoveAppend(a: string, b: string, c: char)
    ensures Remove(a + b, c) == Remove(a, c) + Remove(b, c)
    ensures forall x :: Remove([x], c) == if x == c then [] else [x]
    decreases |a|
  {
    forall x
      ensures Remove([x], c) == if x == c then [] else [x]
    {
      assert [x][1..] == [];
    }
    if a == [] {
      assert a + b == b;
    } else {
      assert (a + b)[0] == a[0] && (a + b)[1..] == a[1..] + b;
      RemoveAppend(a[1..], b, c);
    }
  }

  /** `sub in s`, computed by trying each start position in turn. */
  function Contains(s: string, sub: string): (b: bool)
    ensures b ==> |sub| <= |s|
    decreases |s|
  {
    if sub <= s then true
    else if s == [] then false
    else Contains(s[1..], sub)
  }

  /** `Contains` holds exactly when `sub` occurs at some position of `s`. */
  lemma {:induction false} ContainsMeansOccurs(s: string, sub: string)
    ensures Contains(s, sub) <==> exists i :: 0 <= i <= |s| && sub <= s[i..]
    decreases |s|
  {
    if sub <= s {
      assert s[0..] == s;
    } else if s != [] {
      ContainsMeansOccurs(s[1..], sub);
      assert forall i :: 1 <= i <= |s| ==> s[i..] == s[1..][i - 1..];
      if Contains(s[1..], sub) {
        var j :| 0 <= j <= |s[1..]| && sub <= s[1..][j..];
        assert sub <= s[j + 1..];
      }
    }
  }

  /** The inverse of `SplitLines`: `"\n".join(lines)`. */
  function JoinLines(lines: seq<string>): string
    requires |lines| >= 1
  {
    if |lines| == 1 then lines[0] else lines[0] + "\n" + JoinLines(lines[1..])
  }

  /** `text.split("\n")`: the pieces between newlines, always at least one. */
  function SplitLines(text: string): (lines: seq<string>)
    ensures |lines| >= 1
    ensures forall i :: 0 <= i < |lines| ==> '\n' !in lines[i]
    ensures JoinLines(lines) == text
  {
    if text == [] then [[]]
    else
      var rest := SplitLines(text[1..]);
      if text[0] == '\n' then
        assert text == "\n" + text[1..];
        [[]] + rest
      else
        var lines := [[text[0]] + rest[0]] + rest[1..];
        assert lines[1..] == rest[1..];
        assert text == [text[0]] + text[1..];
        lines
  }

  lemma {:induction false} SplitLinesOfPrefix(w: string, t: string)
    requires '\n' !in w
    ensures SplitLines(w + t) == [w + SplitLines(t)[0]] + SplitLines(t)[1..]
  {
    if w != [] {
      assert (w + t)[1..] == w[1..] + t;
      assert (w + t)[0] == w[0];
      SplitLinesOfPrefix(w[1..], t);
      assert [w[0]] + (w[1..] + SplitLines(t)[0]) == w + SplitLines(t)[0];
    } else {
      var r := SplitLines(t);
      assert w + t == t;
      assert w + r[0] == r[0];
      assert r == [r[0]] + r[1..];
    }
  }

  /** Splitting undoes joining newline-free lines. */
  lemma {:induction false} SplitJoin(lines: seq<string>)
    requires |lines| >= 1
    requires forall i :: 0 <= i < |lines| ==> '\n' !in lines[i]
    ensures SplitLines(JoinLines(lines)) == lines
  {
    if |lines| == 1 {
      SplitLinesOfPrefix(lines[0], []);
      assert lines[0] + [] == lines[0];
    } else {
      var tail := JoinLines(lines[1..]);
      SplitJoin(lines[1..]);
      assert lines[0] + "\n" + tail == lines[0] + ("\n" + tail);
      SplitLinesOfPrefix(lines[0], "\n" + tail);
      assert ("\n" + tail)[0] == '\n' && ("\n" + tail)[1..] == tail;
      var r := SplitLines("\n" + tail);
      assert r == [[]] + lines[1..];
      assert r[0] == [] && r[1..] == lines[1..];
      assert lines[0] + r[0] == lines[0];
      assert JoinLines(lines) == lines[0] + ("\n" + tail);
      assert lines == [lines[0]] + lines[1..];
    }
  }
}
