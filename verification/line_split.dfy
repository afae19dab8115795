/** `text.split('\n')` as JavaScript defines it, and the two halves the relay
    takes from it: the complete lines and the unfinished tail (`lines.pop() || ''`). */
module LineSplit {
  import opened Wrappers

  predicate NoNewline(s: string) {
    forall i :: 0 <= i < |s| ==> s[i] != '\n'
  }

  predicate AllNoNewline(ps: seq<string>) {
    forall k :: 0 <= k < |ps| ==> NoNewline(ps[k])
  }

  /** `pieces.join('\n')`. */
  function Join(ps: seq<string>): string
    requires |ps| >= 1
  {
    if |ps| == 1 then ps[0] else ps[0] + "\n" + Join(ps[1..])
  }

  /** `s.split('\n')`: never empty and no piece holds a newline (`SplitJoin`:
      joining the pieces back with newlines gives `s` again). */
  function Split(s: string): (ps: seq<string>)
    ensures |ps| >= 1 && AllNoNewline(ps)
  {
    if s == [] then [""]
    else if s[0] == '\n' then [""] + Split(s[1..])
    else var r := Split(s[1..]); [[s[0]] + r[0]] + r[1..]
  }

  /** Splitting loses nothing: the pieces joined with newlines are the text. */
  lemma {:induction false} SplitJoin(s: string)
    ensures Join(Split(s)) == s
  {
    if s != [] {
      SplitJoin(s[1..]);
      var r := Split(s[1..]);
      if s[0] == '\n' {
        assert s == "\n" + s[1..];
      } else {
        JoinCons(s[0], r);
        assert s == [s[0]] + s[1..];
      }
    }
  }

  /** A character in front of the first piece is a character in front of the join. */
  lemma JoinCons(c: char, r: seq<string>)
    requires |r| >= 1
    ensures Join([[c] + r[0]] + r[1..]) == [c] + Join(r)
  {
    var ps := [[c] + r[0]] + r[1..];
    assert ps[0] == [c] + r[0] && ps[1..] == r[1..];
    if |r| > 1 {
      var rest := Join(r[1..]);
      assert Join(ps) == [c] + r[0] + "\n" + rest;
      AppendAssoc([c], r[0], "\n");
      AppendAssoc([c], r[0] + "\n", rest);
    }
  }

  /** The complete lines of `s`: everything before its last newline, split. */
  function Lines(s: string): (ls: seq<string>)
    ensures AllNoNewline(ls)
  {
    var ps := Split(s);
    ps[..|ps| - 1]
  }

  /** What is left after the last newline of `s`: the relay's `buffer`. */
  function Unfinished(s: string): (u: string)
    ensures NoNewline(u)
  {
    var ps := Split(s);
    ps[|ps| - 1]
  }

  /** Lines terminated by newlines: the inverse of `Lines` for text that ends
      with a newline. */
  function Framed(ls: seq<string>): string {
    if ls == [] then "" else ls[0] + "\n" + Framed(ls[1..])
  }

  /** A text without newlines is one (unfinished) piece. */
  lemma {:induction false} SplitNoNewline(s: string)
    requires NoNewline(s)
    ensures Split(s) == [s]
  {
    if s != [] {
      SplitNoNewline(s[1..]);
      assert s == [s[0]] + s[1..];
    }
  }

  /** A newline-free line followed by a newline splits off as the first piece. */
  lemma {:induction false} SplitAfterLine(p: string, x: string)
    requires NoNewline(p)
    ensures Split(p + "\n" + x) == [p] + Split(x)
  {
    if p == [] {
      assert (p + "\n" + x)[1..] == x;
    } else {
      var s := p + "\n" + x;
      assert s[0] == p[0] && s[1..] == p[1..] + "\n" + x;
      SplitAfterLine(p[1..], x);
      assert [p[0]] + p[1..] == p;
    }
  }

  /** `Split` is the only decomposition of `s` into newline-free pieces joined by
      newlines: it is exactly JavaScript's `split('\n')`. */
  lemma {:induction false} SplitUnique(ps: seq<string>, s: string)
    requires |ps| >= 1 && AllNoNewline(ps) && Join(ps) == s
    ensures Split(s) == ps
    decreases |ps|
  {
    if |ps| == 1 {
      SplitNoNewline(s);
    } else {
      SplitUnique(ps[1..], Join(ps[1..]));
      SplitAfterLine(ps[0], Join(ps[1..]));
      assert [ps[0]] + ps[1..] == ps;
    }
  }

  /** Framed lines in front of joined pieces join to the framed text in front. */
  lemma {:induction false} JoinFramed(ls: seq<string>, ps: seq<string>)
    requires |ps| >= 1
    ensures Join(ls + ps) == Framed(ls) + Join(ps)
    decreases |ls|
  {
    if ls == [] {
      assert ls + ps == ps;
    } else {
      JoinFramed(ls[1..], ps);
      assert (ls + ps)[0] == ls[0] && (ls + ps)[1..] == ls[1..] + ps;
    }
  }

  /** Framed lines come back out of `Split` one by one, in front of whatever
      follows them. */
  lemma SplitFramed(ls: seq<string>, x: string)
    requires AllNoNewline(ls)
    ensures Split(Framed(ls) + x) == ls + Split(x)
  {
    var tail := Split(x);
    SplitJoin(x);
    JoinFramed(ls, tail);
    AllNoNewlineAppend(ls, tail);
    SplitUnique(ls + tail, Framed(ls) + x);
  }

  /** The complete lines of framed lines followed by `x` are those lines and then
      the complete lines of `x`; the unfinished tail is that of `x`. */
  lemma LinesFramed(ls: seq<string>, x: string)
    requires AllNoNewline(ls)
    ensures Lines(Framed(ls) + x) == ls + Lines(x)
    ensures Unfinished(Framed(ls) + x) == Unfinished(x)
  {
    SplitFramed(ls, x);
    DropLast(ls, Split(x));
  }

  /** Round trip: the complete lines of framed lines are those lines, and
      nothing is left unfinished. */
  lemma FramedRoundTrip(ls: seq<string>)
    requires AllNoNewline(ls)
    ensures Lines(Framed(ls)) == ls && Unfinished(Framed(ls)) == ""
  {
    LinesFramed(ls, "");
    assert Framed(ls) + "" == Framed(ls);
  }

  /** Joining two non-empty runs of pieces. */
  lemma {:induction false} JoinAppend(xs: seq<string>, ys: seq<string>)
    requires |xs| >= 1 && |ys| >= 1
    ensures Join(xs + ys) == Join(xs) + "\n" + Join(ys)
    decreases |xs|
  {
    assert (xs + ys)[0] == xs[0];
    if |xs| == 1 {
      assert (xs + ys)[1..] == ys;
    } else {
      assert (xs + ys)[1..] == xs[1..] + ys;
      JoinAppend(xs[1..], ys);
    }
  }

  /** Splitting `a + b` is splitting `a`, keeping its complete lines, and
      splitting its unfinished tail with `b` appended. */
  lemma SplitAppend(a: string, b: string)
    ensures Split(a + b) == Lines(a) + Split(Unfinished(a) + b)
  {
    var pa := Split(a);
    var lines, u := Lines(a), Unfinished(a);
    var tail := Split(u + b);
    assert pa == lines + [u];
    if lines == [] {
      assert a == u by {
        SplitJoin(a);
      }
      assert lines + tail == tail;
    } else {
      assert a == Join(lines) + "\n" + u by {
        SplitJoin(a);
        JoinLast(pa);
      }
      assert Join(lines + tail) == a + b by {
        SplitJoin(u + b);
        JoinAppend(lines, tail);
        AppendAssoc(Join(lines) + "\n", u, b);
      }
      assert AllNoNewline(lines) by {
        assert forall k :: 0 <= k < |lines| ==> lines[k] == pa[k];
      }
      AllNoNewlineAppend(lines, tail);
      SplitUnique(lines + tail, a + b);
    }
  }

  /** The streaming step of the relay in terms of complete lines and tail. */
  lemma StreamStep(a: string, b: string)
    ensures Lines(a + b) == Lines(a) + Lines(Unfinished(a) + b)
    ensures Unfinished(a + b) == Unfinished(Unfinished(a) + b)
  {
    SplitAppend(a, b);
    DropLast(Lines(a), Split(Unfinished(a) + b));
  }

  /** Dropping the last element of `xs + ys` drops the last element of `ys`. */
  lemma DropLast<T>(xs: seq<T>, ys: seq<T>)
    requires |ys| >= 1
    ensures (xs + ys)[..|xs + ys| - 1] == xs + ys[..|ys| - 1]
    ensures (xs + ys)[|xs + ys| - 1] == ys[|ys| - 1]
  {
  }

  lemma AllNoNewlineAppend(xs: seq<string>, ys: seq<string>)
    requires AllNoNewline(xs) && AllNoNewline(ys)
    ensures AllNoNewline(xs + ys)
  {
    forall k | 0 <= k < |xs + ys|
      ensures NoNewline((xs + ys)[k])
    {
      if k < |xs| {
        assert (xs + ys)[k] == xs[k];
      } else {
        assert (xs + ys)[k] == ys[k - |xs|];
      }
    }
  }

  /** `Unfinished(s)` is exactly the text after the last newline of `s`: it is a
      newline-free suffix of `s`, preceded by a newline unless it is all of `s`. */
  lemma TailAfterLastNewline(s: string)
    ensures NoNewline(Unfinished(s))
    ensures |Unfinished(s)| <= |s| && s[|s| - |Unfinished(s)|..] == Unfinished(s)
    ensures |Unfinished(s)| < |s| ==> s[|s| - |Unfinished(s)| - 1] == '\n'
  {
    var ps := Split(s);
    var u := Unfinished(s);
    SplitJoin(s);
    if |ps| == 1 {
    } else {
      JoinLast(ps);
      assert s == Join(ps[..|ps| - 1]) + "\n" + u;
      assert s[|s| - |u|..] == u;
    }
  }

  /** Joining with a last piece split off. */
  lemma {:induction false} JoinLast(ps: seq<string>)
    requires |ps| >= 2
    ensures Join(ps) == Join(ps[..|ps| - 1]) + "\n" + ps[|ps| - 1]
    decreases |ps|
  {
    if |ps| > 2 {
      JoinLast(ps[1..]);
      assert ps[1..][..|ps| - 2] == ps[..|ps| - 1][1..];
    }
  }
}
