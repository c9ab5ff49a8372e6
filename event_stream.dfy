/**
 * The record layer of the text/event-stream that the server writes and the
 * client reads: records end with a blank line, "\n\n", and carry their
 * payload after the field prefix "data: ".  The client does not implement
 * the full parsing rules of section 9.2 of the WHATWG HTML Living Standard;
 * it splits each chunk on "\n\n" with JavaScript's `String.prototype.split`,
 * which `Split` models.
 */
module EventStream {

  const Separator: string := "\n\n"
  const DataPrefix: string := "data: "

  predicate NoNewline(s: string) {
    forall k :: 0 <= k < |s| ==> s[k] != '\n'
  }

  /** `s` has no "\n\n" anywhere in it. */
  predicate NoSeparator(s: string) {
    forall k :: 0 <= k < |s| - 1 ==> !(s[k] == '\n' && s[k + 1] == '\n')
  }

  /**
   * `s.split("\n\n")`: the pieces between the separators, taking the
   * leftmost separator first; an empty string gives one empty piece.
   */
  function Split(s: string): (r: seq<string>)
    ensures |r| >= 1 && r[0] <= s
    decreases |s|
  {
    if |s| < 2 then [s]
    else if s[0] == '\n' && s[1] == '\n' then [""] + Split(s[2..])
    else
      var rest := Split(s[1..]);
      [[s[0]] + rest[0]] + rest[1..]
  }

  /** The pieces put back together with the separator between them. */
  function Join(parts: seq<string>): string
    requires |parts| >= 1
  {
    if |parts| == 1 then parts[0] else parts[0] + Separator + Join(parts[1..])
  }

  lemma JoinCons(h: string, tail: seq<string>)
    requires |tail| >= 1
    ensures Join([h] + tail) == h + Separator + Join(tail)
  {
    assert ([h] + tail)[1..] == tail;
  }

  lemma ConcatAssoc(c: char, p: string, j: string)
    ensures [c] + p + Separator + j == [c] + (p + Separator + j)
  {
  }

  lemma JoinConsHeadLonger(c: char, parts: seq<string>)
    requires |parts| > 1
    ensures Join([[c] + parts[0]] + parts[1..]) == [c] + Join(parts)
  {
    var h := [c] + parts[0];
    var t := parts[1..];
    JoinCons(h, t);
    assert parts == [parts[0]] + t;
    JoinCons(parts[0], t);
    ConcatAssoc(c, parts[0], Join(t));
  }

  lemma JoinConsHead(c: char, parts: seq<string>)
    requires |parts| >= 1
    ensures Join([[c] + parts[0]] + parts[1..]) == [c] + Join(parts)
  {
    if |parts| == 1 {
      assert [[c] + parts[0]] + parts[1..] == [[c] + parts[0]];
    } else {
      JoinConsHeadLonger(c, parts);
    }
  }

  /** Splitting loses nothing: the pieces joined again give the chunk back. */
  lemma {:induction false} SplitJoin(s: string)
    ensures Join(Split(s)) == s
    decreases |s|
  {
    if |s| < 2 {
    } else if s[0] == '\n' && s[1] == '\n' {
      SplitJoin(s[2..]);
      assert ([""] + Split(s[2..]))[1..] == Split(s[2..]);
      assert s == "" + Separator + s[2..];
    } else {
      var rest := Split(s[1..]);
      SplitJoin(s[1..]);
      JoinConsHead(s[0], rest);
      assert [s[0]] + s[1..] == s;
    }
  }

  /** No piece contains the separator: the split is complete. */
  lemma {:induction false} SplitPiecesHaveNoSeparator(s: string)
    ensures forall i :: 0 <= i < |Split(s)| ==> NoSeparator(Split(s)[i])
    decreases |s|
  {
    if |s| < 2 {
    } else if s[0] == '\n' && s[1] == '\n' {
      SplitPiecesHaveNoSeparator(s[2..]);
      assert forall i :: 1 <= i < |Split(s)| ==> Split(s)[i] == Split(s[2..])[i - 1];
    } else {
      var rest := Split(s[1..]);
      SplitPiecesHaveNoSeparator(s[1..]);
      var head := [s[0]] + rest[0];
      assert NoSeparator(head) by {
        if |rest[0]| > 0 {
          assert rest[0][0] == s[1];
        }
        assert forall k :: 1 <= k < |head| ==> head[k] == rest[0][k - 1];
      }
      assert forall i :: 1 <= i < |Split(s)| ==> Split(s)[i] == rest[i];
    }
  }

  /**
   * The split takes the leftmost separator first: a piece that another
   * piece follows does not end with a newline, so no "\n\n" starts inside
   * it or at its last character.
   */
  lemma {:induction false} SplitTakesLeftmost(s: string)
    ensures forall i :: 0 <= i < |Split(s)| - 1 ==> NoSeparator(Split(s)[i] + "\n")
    decreases |s|
  {
    if |s| < 2 {
    } else if s[0] == '\n' && s[1] == '\n' {
      SplitTakesLeftmost(s[2..]);
      assert forall i :: 1 <= i < |Split(s)| ==> Split(s)[i] == Split(s[2..])[i - 1];
    } else {
      var rest := Split(s[1..]);
      SplitTakesLeftmost(s[1..]);
      if |rest| > 1 {
        var head := [s[0]] + rest[0] + "\n";
        assert NoSeparator(head) by {
          if rest[0] == [] {
            assert s[1] == '\n';
          } else {
            assert rest[0][0] == s[1];
          }
          assert forall k :: 1 <= k < |head| ==> head[k] == (rest[0] + "\n")[k - 1];
        }
      }
      assert forall i :: 1 <= i < |Split(s)| ==> Split(s)[i] == rest[i];
    }
  }

  /**
   * A record body without a newline, followed by the separator, is split
   * off as one piece, whatever follows it.
   */
  lemma {:induction false} SplitAfterRecord(a: string, b: string)
    requires NoNewline(a)
    ensures Split(a + Separator + b) == [a] + Split(b)
    decreases |a|
  {
    var s := a + Separator + b;
    if a == [] {
      assert s[2..] == b;
    } else {
      assert s[1..] == a[1..] + Separator + b;
      SplitAfterRecord(a[1..], b);
      assert [s[0]] + a[1..] == a;
    }
  }

  // ---------------------------------------------------------------------
  // Concatenating what a function gives for each piece

  /** `f` applied to each of `xs`, the results one after another. */
  function ConcatMap(f: string -> string, xs: seq<string>): string {
    if xs == [] then "" else f(xs[0]) + ConcatMap(f, xs[1..])
  }

  lemma ConcatMapSingle(f: string -> string, x: string)
    ensures ConcatMap(f, [x]) == f(x)
  {
    assert [x][1..] == [];
  }

  lemma {:induction false} ConcatMapAppend(f: string -> string, xs: seq<string>, x: string)
    ensures ConcatMap(f, xs + [x]) == ConcatMap(f, xs) + f(x)
  {
    if xs == [] {
      assert [] + [x] == [x];
    } else {
      assert (xs + [x])[1..] == xs[1..] + [x];
      ConcatMapAppend(f, xs[1..], x);
    }
  }

  lemma {:induction false} ConcatMapConcat(f: string -> string, a: seq<string>, b: seq<string>)
    ensures ConcatMap(f, a + b) == ConcatMap(f, a) + ConcatMap(f, b)
  {
    if a == [] {
      assert [] + b == b;
    } else {
      assert (a + b)[1..] == a[1..] + b;
      ConcatMapConcat(f, a[1..], b);
    }
  }
}
