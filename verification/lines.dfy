/**
  Text as a sequence of lines separated by the newline character, with the
  splitting behaviour of Rust's `str::split("\n")`: the empty text is one empty
  line, and a trailing newline yields a trailing empty line.
 */
module Lines {

  const Newline: char := '\n'

  predicate NoNewline(s: seq<char>) {
    Newline !in s
  }

  predicate AllNoNewline(lines: seq<seq<char>>) {
    forall i :: 0 <= i < |lines| ==> NoNewline(lines[i])
  }

  /** The pieces of `s` between newlines; there is always at least one. */
  function Split(s: seq<char>): (lines: seq<seq<char>>)
    ensures |lines| >= 1
    ensures AllNoNewline(lines)
  {
    if |s| == 0 then [[]]
    else
      assert s == [s[0]] + s[1..];
      if s[0] == Newline then [[]] + Split(s[1..])
      else
        var rest := Split(s[1..]);
        [[s[0]] + rest[0]] + rest[1..]
  }

  /** The lines put back together with one newline between neighbours. */
  function Join(lines: seq<seq<char>>): (s: seq<char>)
    requires |lines| >= 1
    ensures lines[0] <= s
    ensures |lines| > 1 ==> |lines[0]| < |s| && s[|lines[0]|] == Newline
  {
    if |lines| == 1 then lines[0] else lines[0] + [Newline] + Join(lines[1..])
  }

  /** The pieces laid end to end with nothing between them. */
  function Concat(pieces: seq<seq<char>>): seq<char> {
    if |pieces| == 0 then [] else pieces[0] + Concat(pieces[1..])
  }

  /** Every line followed by its own newline. */
  function Terminated(lines: seq<seq<char>>): (pieces: seq<seq<char>>)
    ensures |pieces| == |lines|
  {
    seq(|lines|, i requires 0 <= i < |lines| => lines[i] + [Newline])
  }

  /** `s` with `c` placed at position `i` (`String::insert`). */
  function InsertAt(s: seq<char>, i: nat, c: char): (r: seq<char>)
    requires i <= |s|
    ensures |r| == |s| + 1 && r[i] == c
    ensures r[..i] == s[..i] && r[i + 1..] == s[i..]
  {
    s[..i] + [c] + s[i..]
  }

  /** `s` without its character at position `i` (`String::remove`). */
  function RemoveAt(s: seq<char>, i: nat): (r: seq<char>)
    requires i < |s|
    ensures |r| + 1 == |s|
    ensures r[..i] == s[..i] && r[i..] == s[i + 1..]
  {
    s[..i] + s[i + 1..]
  }

  lemma RemoveAtInsertAt(s: seq<char>, i: nat, c: char)
    requires i <= |s|
    ensures RemoveAt(InsertAt(s, i, c), i) == s
  {
  }

  lemma InsertAtRemoveAt(s: seq<char>, i: nat)
    requires i < |s|
    ensures InsertAt(RemoveAt(s, i), i, s[i]) == s
  {
  }

  lemma NoNewlineInsertAt(s: seq<char>, i: nat, c: char)
    requires i <= |s| && NoNewline(s) && c != Newline
    ensures NoNewline(InsertAt(s, i, c))
  {
  }

  lemma NoNewlineRemoveAt(s: seq<char>, i: nat)
    requires i < |s| && NoNewline(s)
    ensures NoNewline(RemoveAt(s, i))
  {
  }

  lemma NoNewlineSlices(s: seq<char>, i: nat)
    requires i <= |s| && NoNewline(s)
    ensures NoNewline(s[..i]) && NoNewline(s[i..])
  {
  }

  /** A text without newlines is a single line. */
  lemma {:induction false} SplitNoNewline(s: seq<char>)
    requires NoNewline(s)
    ensures Split(s) == [s]
  {
    if |s| > 0 {
      assert s == [s[0]] + s[1..];
      NoNewlineSlices(s, 1);
      SplitNoNewline(s[1..]);
    }
  }

  /** Splitting at the first newline. */
  lemma {:induction false} SplitFirstLine(a: seq<char>, b: seq<char>)
    requires NoNewline(a)
    ensures Split(a + [Newline] + b) == [a] + Split(b)
  {
    var s := a + [Newline] + b;
    if |a| == 0 {
      assert s[1..] == b;
    } else {
      assert s[1..] == a[1..] + [Newline] + b;
      NoNewlineSlices(a, 1);
      SplitFirstLine(a[1..], b);
      assert [a[0]] + a[1..] == a;
    }
  }

  /** Joining the lines of a text gives the text back. */
  lemma {:induction false} JoinSplit(s: seq<char>)
    ensures Join(Split(s)) == s
  {
    if |s| > 0 {
      var tail := s[1..];
      assert s == [s[0]] + tail;
      JoinSplit(tail);
      var rest := Split(tail);
      if s[0] == Newline {
        JoinFirst([], rest);
      } else {
        JoinFirst([s[0]] + rest[0], rest[1..]);
        if |rest| > 1 {
          JoinFirst(rest[0], rest[1..]);
        }
      }
    }
  }

  /** Joining a first line in front of further lines. */
  lemma JoinFirst(first: seq<char>, more: seq<seq<char>>)
    ensures Join([first] + more) == if |more| == 0 then first else first + [Newline] + Join(more)
  {
  }

  /** Splitting joined newline-free lines gives the lines back. */
  lemma {:induction false} SplitJoin(lines: seq<seq<char>>)
    requires |lines| >= 1 && AllNoNewline(lines)
    ensures Split(Join(lines)) == lines
  {
    if |lines| == 1 {
      SplitNoNewline(lines[0]);
    } else {
      assert AllNoNewline(lines[1..]) by {
        forall i | 0 <= i < |lines[1..]| ensures NoNewline(lines[1..][i]) {
          assert lines[1..][i] == lines[i + 1];
        }
      }
      SplitJoin(lines[1..]);
      SplitFirstLine(lines[0], Join(lines[1..]));
    }
  }

  /** Joining two non-empty runs of lines puts one newline between them. */
  lemma {:induction false} JoinAppend(a: seq<seq<char>>, b: seq<seq<char>>)
    requires |a| >= 1 && |b| >= 1
    ensures Join(a + b) == Join(a) + [Newline] + Join(b)
  {
    if |a| > 1 {
      assert (a + b)[1..] == a[1..] + b;
      JoinAppend(a[1..], b);
    } else {
      assert (a + b)[1..] == b;
    }
  }

  /** A line containing one newline joins exactly like the two lines it separates. */
  lemma JoinSplice(before: seq<seq<char>>, u: seq<char>, v: seq<char>, after: seq<seq<char>>)
    ensures Join(before + [u + [Newline] + v] + after) == Join(before + [u, v] + after)
  {
    var tail1 := [u + [Newline] + v] + after;
    var tail2 := [u, v] + after;
    assert Join(tail1) == Join(tail2) by {
      if |after| > 0 {
        JoinAppend([u + [Newline] + v], after);
        JoinAppend([u, v], after);
        assert Join([u, v]) == u + [Newline] + Join([v]);
      } else {
        assert tail1 == [u + [Newline] + v] && tail2 == [u, v];
        assert Join([u, v]) == u + [Newline] + Join([v]);
      }
    }
    if |before| > 0 {
      assert before + [u + [Newline] + v] + after == before + tail1;
      assert before + [u, v] + after == before + tail2;
      JoinAppend(before, tail1);
      JoinAppend(before, tail2);
    } else {
      assert before + [u + [Newline] + v] + after == tail1;
      assert before + [u, v] + after == tail2;
    }
  }

  lemma {:induction false} ConcatAppend(a: seq<seq<char>>, b: seq<seq<char>>)
    ensures Concat(a + b) == Concat(a) + Concat(b)
  {
    if |a| == 0 {
      assert a + b == b;
    } else {
      assert (a + b)[1..] == a[1..] + b;
      ConcatAppend(a[1..], b);
    }
  }

  /** Newline-terminated lines laid end to end are the lines joined, plus a final empty line. */
  lemma {:induction false} ConcatTerminated(lines: seq<seq<char>>)
    ensures Concat(Terminated(lines)) == Join(lines + [[]])
  {
    if |lines| > 0 {
      assert Terminated(lines)[1..] == Terminated(lines[1..]);
      ConcatTerminated(lines[1..]);
      assert (lines + [[]])[1..] == lines[1..] + [[]];
    }
  }

  /** Every line is no longer than the joined text. */
  lemma {:induction false} LineWithinJoin(lines: seq<seq<char>>, i: nat)
    requires i < |lines|
    ensures |lines[i]| <= |Join(lines)|
  {
    if i > 0 {
      LineWithinJoin(lines[1..], i - 1);
    }
  }

  /** A text is one line exactly when it holds no newline, and that line is the text. */
  lemma SingleLine(s: seq<char>)
    ensures |Split(s)| == 1 <==> NoNewline(s)
    ensures |Split(s)| == 1 ==> Split(s)[0] == s
  {
  }

  /** The last piece ends the concatenation. */
  lemma ConcatLast(pieces: seq<seq<char>>)
    requires |pieces| >= 1
    ensures Concat(pieces) == Concat(pieces[..|pieces| - 1]) + pieces[|pieces| - 1]
  {
    var n := |pieces|;
    assert pieces == pieces[..n - 1] + [pieces[n - 1]];
    ConcatAppend(pieces[..n - 1], [pieces[n - 1]]);
    assert [pieces[n - 1]][1..] == [];
  }

  /** The lines of a newline-free text after one insertion: still one line, or two if a newline went in. */
  lemma SplitInsertAt(s: seq<char>, i: nat, c: char)
    requires i <= |s| && NoNewline(s)
    ensures c != Newline ==> Split(InsertAt(s, i, c)) == [InsertAt(s, i, c)]
    ensures c == Newline ==> Split(InsertAt(s, i, c)) == [s[..i], s[i..]]
  {
    var t := InsertAt(s, i, c);
    if c != Newline {
      NoNewlineInsertAt(s, i, c);
      SplitNoNewline(t);
    } else {
      NoNewlineSlices(s, i);
      assert t == s[..i] + [Newline] + s[i..];
      SplitFirstLine(s[..i], s[i..]);
      SplitNoNewline(s[i..]);
    }
  }

  lemma ConcatAround(before: seq<seq<char>>, mid: seq<seq<char>>, after: seq<seq<char>>)
    ensures Concat(before + mid + after) == Concat(before) + Concat(mid) + Concat(after)
  {
    ConcatAppend(before + mid, after);
    ConcatAppend(before, mid);
  }

  lemma ConcatSingle(a: seq<char>)
    ensures Concat([a]) == a
  {
    assert [a][1..] == [];
  }

  lemma ConcatPair(a: seq<char>, b: seq<char>)
    ensures Concat([a, b]) == a + b
  {
    assert [a, b][1..] == [b];
    assert [b][1..] == [];
    assert Concat([b]) == b + Concat([]);
  }

  /** There is one more line than there are newlines. */
  lemma {:induction false} SplitCount(s: seq<char>)
    ensures |Split(s)| == multiset(s)[Newline] + 1
  {
    if |s| > 0 {
      assert s == [s[0]] + s[1..];
      assert multiset(s) == multiset{s[0]} + multiset(s[1..]);
      SplitCount(s[1..]);
    }
  }
}
