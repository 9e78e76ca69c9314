/** Python's `str.split('/')`, as the request handler uses it on the URL
    path, and its inverse `'/'.join`. */
module Text {

  /** `s.split('/')`: the pieces between separators, empty pieces included. */
  function Split(s: string): (parts: seq<string>)
    ensures |parts| >= 1
  {
    if s == [] then [""]
    else
      var tail := Split(s[1..]);
      if s[0] == '/' then [""] + tail
      else [[s[0]] + tail[0]] + tail[1..]
  }

  /** `'/'.join(parts)`. */
  function Join(parts: seq<string>): (s: string)
    requires |parts| >= 1
  {
    if |parts| == 1 then parts[0] else parts[0] + "/" + Join(parts[1..])
  }

  /** No piece contains a separator. */
  lemma {:induction false} SplitPiecesAreSeparatorFree(s: string)
    ensures forall k :: 0 <= k < |Split(s)| ==> '/' !in Split(s)[k]
  {
    if s != [] {
      SplitPiecesAreSeparatorFree(s[1..]);
    }
  }

  /** Joining the pieces gives back the string that was split. */
  lemma {:induction false} JoinSplit(s: string)
    ensures Join(Split(s)) == s
  {
    if s != [] {
      var c, t := s[0], s[1..];
      JoinSplit(t);
      SplitCons(c, t);
      assert s == [c] + t;
      if c == '/' {
        JoinAfterEmptyPiece(Split(t));
      } else {
        var pieces := Split(t);
        JoinPrependToFirstPiece(c, pieces[0], pieces[1..]);
        assert [pieces[0]] + pieces[1..] == pieces;
      }
    }
  }

  lemma JoinAfterEmptyPiece(parts: seq<string>)
    requires |parts| >= 1
    ensures Join([""] + parts) == "/" + Join(parts)
  {
    assert ([""] + parts)[1..] == parts;
  }

  lemma JoinPrependToFirstPiece(c: char, head: string, tail: seq<string>)
    ensures Join([[c] + head] + tail) == [c] + Join([head] + tail)
  {
    if tail == [] {
      assert [[c] + head] + tail == [[c] + head];
      assert [head] + tail == [head];
    } else {
      JoinCons([c] + head, tail);
      JoinCons(head, tail);
      assert ([c] + head) + "/" + Join(tail) == [c] + (head + "/" + Join(tail));
    }
  }

  lemma JoinCons(piece: string, parts: seq<string>)
    requires |parts| >= 1
    ensures Join([piece] + parts) == piece + "/" + Join(parts)
  {
    assert ([piece] + parts)[1..] == parts;
  }

  /** How Split treats the first character. */
  lemma SplitCons(c: char, t: string)
    ensures Split([c] + t) ==
      if c == '/' then [""] + Split(t) else [[c] + Split(t)[0]] + Split(t)[1..]
  {
    assert ([c] + t)[0] == c && ([c] + t)[1..] == t;
  }

  /** Splitting at a separator splits each side independently. */
  lemma {:induction false} SplitAppend(a: string, b: string)
    ensures Split(a + "/" + b) == Split(a) + Split(b)
    decreases |a|, 1
  {
    if a == [] {
      assert a + "/" + b == "/" + b;
      SplitCons('/', b);
    } else if a[0] == '/' {
      SplitAppendAfterSeparator(a, b);
    } else {
      SplitAppendAfterChar(a, b);
    }
  }

  lemma {:induction false} SplitAppendAfterSeparator(a: string, b: string)
    requires a != [] && a[0] == '/'
    ensures Split(a + "/" + b) == Split(a) + Split(b)
    decreases |a|, 0
  {
    var rest, x := a[1..], a[1..] + "/" + b;
    assert a + "/" + b == "/" + x;
    assert a == "/" + rest;
    SplitAppend(rest, b);
    calc {
      Split(a + "/" + b);
      Split("/" + x);
      { SplitCons('/', x); }
      [""] + Split(x);
      [""] + (Split(rest) + Split(b));
      ([""] + Split(rest)) + Split(b);
      { SplitCons('/', rest); }
      Split(a) + Split(b);
    }
  }

  lemma {:induction false} SplitAppendAfterChar(a: string, b: string)
    requires a != [] && a[0] != '/'
    ensures Split(a + "/" + b) == Split(a) + Split(b)
    decreases |a|, 0
  {
    var c, rest := a[0], a[1..];
    var x := rest + "/" + b;
    assert a + "/" + b == [c] + x;
    assert a == [c] + rest;
    SplitAppend(rest, b);
    SplitCons(c, x);
    SplitCons(c, rest);
    PrependToFirstPiece(c, Split(rest), Split(b));
  }

  /** Prepending a character to the first piece of `front + back` only
      touches `front`. */
  lemma PrependToFirstPiece(c: char, front: seq<string>, back: seq<string>)
    requires |front| >= 1
    ensures [[c] + (front + back)[0]] + (front + back)[1..] == ([[c] + front[0]] + front[1..]) + back
  {
    assert (front + back)[0] == front[0];
    assert (front + back)[1..] == front[1..] + back;
  }

  /** Splitting the join of separator-free pieces gives back those pieces. */
  lemma {:induction false} SplitJoin(parts: seq<string>)
    requires |parts| >= 1
    requires forall k :: 0 <= k < |parts| ==> '/' !in parts[k]
    ensures Split(Join(parts)) == parts
  {
    SplitOfPiece(parts[0]);
    if |parts| > 1 {
      SplitJoin(parts[1..]);
      SplitAppend(parts[0], Join(parts[1..]));
      assert parts == [parts[0]] + parts[1..];
    }
  }

  /** A string without separators is a single piece. */
  lemma {:induction false} SplitOfPiece(a: string)
    requires '/' !in a
    ensures Split(a) == [a]
  {
    if a != [] {
      SplitOfPiece(a[1..]);
      assert a == [a[0]] + a[1..];
    }
  }

  /** The first piece is the longest separator-free prefix. */
  lemma {:induction false} SplitHead(s: string)
    ensures Split(s)[0] <= s
    ensures |Split(s)[0]| == |s| || s[|Split(s)[0]|] == '/'
  {
    if s != [] && s[0] != '/' {
      SplitHead(s[1..]);
    }
  }
}
