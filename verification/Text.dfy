/** Cutting a text at separator characters, as reading lines and `split("\t")` do. */
module Text {

  /** The pieces between the characters that satisfy `sep`; at least one piece. */
  function Split(s: string, sep: char -> bool): (r: seq<string>)
    ensures r != []
  {
    if s == "" then [""]
    else
      var rest := Split(s[1..], sep);
      if sep(s[0]) then [""] + rest else Onto(s[0], rest)
  }

  /** Put a character in front of the first piece. */
  function Onto(c: char, r: seq<string>): (t: seq<string>)
    requires r != []
    ensures t != []
  {
    [[c] + r[0]] + r[1..]
  }

  lemma OntoAdds(c: char, x: seq<string>, y: seq<string>)
    requires x != []
    ensures Onto(c, x + y) == Onto(c, x) + y
  {
    assert (x + y)[1..] == x[1..] + y;
  }

  predicate Free(s: string, sep: char -> bool) {
    forall i :: 0 <= i < |s| ==> !sep(s[i])
  }

  lemma {:induction false} SplitFree(s: string, sep: char -> bool)
    requires Free(s, sep)
    ensures Split(s, sep) == [s]
  {
    if s == "" {
    } else {
      SplitFree(s[1..], sep);
      assert [s[0]] + s[1..] == s;
    }
  }

  /** A text without separator goes in front of the first piece. */
  lemma {:induction false} SplitBehind(a: string, b: string, sep: char -> bool)
    requires Free(a, sep)
    ensures Split(a + b, sep) == [a + Split(b, sep)[0]] + Split(b, sep)[1..]
  {
    if a == "" {
      assert a + b == b && a + Split(b, sep)[0] == Split(b, sep)[0];
    } else {
      SplitBehind(a[1..], b, sep);
      assert (a + b)[1..] == a[1..] + b;
      assert [a[0]] + (a[1..] + Split(b, sep)[0]) == a + Split(b, sep)[0];
    }
  }

  /** A separator between two texts separates their pieces. */
  lemma {:induction false} SplitAt(a: string, c: char, b: string, sep: char -> bool)
    requires sep(c)
    ensures Split(a + [c] + b, sep) == Split(a, sep) + Split(b, sep)
  {
    var all := a + [c] + b;
    if a == "" {
      assert all[1..] == b;
    } else {
      SplitAt(a[1..], c, b, sep);
      assert all[0] == a[0] && all[1..] == a[1..] + [c] + b;
      var x, y := Split(a[1..], sep), Split(b, sep);
      OntoAdds(a[0], x, y);
      assert [""] + (x + y) == [""] + x + y;
    }
  }

  /** Three fields free of the separator come back as they were, whatever follows. */
  lemma SplitThree(a: string, b: string, c: string, tail: string, sep: char -> bool, at: char)
    requires sep(at) && Free(a, sep) && Free(b, sep) && Free(c, sep)
    ensures Split(a + [at] + (b + [at] + (c + [at] + tail)), sep) == [a, b, c] + Split(tail, sep)
  {
    SplitAt(a, at, b + [at] + (c + [at] + tail), sep);
    SplitAt(b, at, c + [at] + tail, sep);
    SplitAt(c, at, tail, sep);
    SplitFree(a, sep);
    SplitFree(b, sep);
    SplitFree(c, sep);
    assert [a] + ([b] + ([c] + Split(tail, sep))) == [a, b, c] + Split(tail, sep);
  }
}
