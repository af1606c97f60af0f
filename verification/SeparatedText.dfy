/** Fields joined by a separator character, and Go's strings.Split by it. */
module SeparatedText {
  predicate Free(sep: char, s: string) {
    forall i :: 0 <= i < |s| ==> s[i] != sep
  }

  predicate AllFree(sep: char, fields: seq<string>) {
    forall i :: 0 <= i < |fields| ==> Free(sep, fields[i])
  }

  function Join(sep: char, fields: seq<string>): string {
    if fields == [] then "" else if |fields| == 1 then fields[0] else fields[0] + [sep] + Join(sep, fields[1..])
  }

  function Split(sep: char, s: string): (r: seq<string>)
    ensures r != []
  {
    if s == "" then [""]
    else
      var rest := Split(sep, s[1..]);
      if s[0] == sep then [""] + rest else [[s[0]] + rest[0]] + rest[1..]
  }

  lemma {:induction false} SplitField(sep: char, head: string)
    requires Free(sep, head)
    ensures Split(sep, head) == [head]
  {
    if head != "" {
      SplitField(sep, head[1..]);
      assert [head[0]] + head[1..] == head;
    }
  }

  lemma {:induction false} SplitFirst(sep: char, head: string, rest: string)
    requires Free(sep, head)
    ensures Split(sep, head + [sep] + rest) == [head] + Split(sep, rest)
  {
    var s := head + [sep] + rest;
    if head == "" {
      assert s[1..] == rest;
    } else {
      assert s[1..] == head[1..] + [sep] + rest;
      SplitFirst(sep, head[1..], rest);
      assert [head[0]] + head[1..] == head;
    }
  }

  /** Splitting undoes joining, provided no field holds the separator. */
  lemma {:induction false} SplitUndoesJoin(sep: char, fields: seq<string>)
    requires fields != [] && AllFree(sep, fields)
    ensures Split(sep, Join(sep, fields)) == fields
  {
    if |fields| == 1 {
      SplitField(sep, fields[0]);
    } else {
      SplitFirst(sep, fields[0], Join(sep, fields[1..]));
      SplitUndoesJoin(sep, fields[1..]);
    }
  }

  /** Joining always undoes splitting, and the parts hold no separator. */
  lemma {:induction false} JoinUndoesSplit(sep: char, s: string)
    ensures Join(sep, Split(sep, s)) == s && AllFree(sep, Split(sep, s))
  {
    if s != "" {
      var rest := Split(sep, s[1..]);
      JoinUndoesSplit(sep, s[1..]);
      var fields := Split(sep, s);
      if s[0] == sep {
        assert fields[1..] == rest;
      } else {
        assert fields[1..] == rest[1..];
      }
      assert s == [s[0]] + s[1..];
    }
  }
}
