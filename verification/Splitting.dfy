/** Splitting a text at every occurrence of a mark, and joining the parts back. */
module Splitting {

  function Split<T(==)>(text: seq<T>, mark: T): (parts: seq<seq<T>>)
    ensures |parts| >= 1
  {
    if text == [] then [[]]
    else
      var rest := Split(text[1..], mark);
      if text[0] == mark then [[]] + rest else [[text[0]] + rest[0]] + rest[1..]
  }

  function Join<T>(parts: seq<seq<T>>, mark: T): seq<T>
    requires |parts| >= 1
  {
    if |parts| == 1 then parts[0] else parts[0] + [mark] + Join(parts[1..], mark)
  }

  ghost predicate MarkFree<T>(parts: seq<seq<T>>, mark: T) {
    forall i :: 0 <= i < |parts| ==> mark !in parts[i]
  }

  lemma {:induction false} JoinSplit<T>(text: seq<T>, mark: T)
    ensures Join(Split(text, mark), mark) == text && MarkFree(Split(text, mark), mark)
  {
    if text != [] {
      JoinSplit(text[1..], mark);
      var rest, parts := Split(text[1..], mark), Split(text, mark);
      if text[0] == mark {
        assert parts[1..] == rest;
      } else {
        assert parts[1..] == rest[1..] && parts[0] == [text[0]] + rest[0];
      }
    }
  }

  lemma {:induction false} SplitPrefix<T>(head: seq<T>, tail: seq<T>, mark: T)
    requires mark !in head
    ensures Split(head + tail, mark) == [head + Split(tail, mark)[0]] + Split(tail, mark)[1..]
  {
    var parts := Split(tail, mark);
    if head == [] {
      assert head + tail == tail && head + parts[0] == parts[0];
    } else {
      assert (head + tail)[1..] == head[1..] + tail;
      SplitPrefix(head[1..], tail, mark);
      assert [head[0]] + (head[1..] + parts[0]) == head + parts[0];
    }
  }

  lemma {:induction false} SplitJoin<T>(parts: seq<seq<T>>, mark: T)
    requires |parts| >= 1 && MarkFree(parts, mark)
    ensures Split(Join(parts, mark), mark) == parts
  {
    if |parts| == 1 {
      SplitPrefix(parts[0], [], mark);
      assert parts[0] + [] == parts[0];
    } else {
      SplitJoin(parts[1..], mark);
      var rest := [mark] + Join(parts[1..], mark);
      assert rest[1..] == Join(parts[1..], mark);
      SplitPrefix(parts[0], rest, mark);
      assert parts[0] + rest == Join(parts, mark);
      assert Split(rest, mark) == [[]] + parts[1..];
      assert parts[0] + Split(rest, mark)[0] == parts[0] && Split(rest, mark)[1..] == parts[1..];
    }
  }

  lemma {:induction false} JoinAppend<T>(parts: seq<seq<T>>, part: seq<T>, mark: T)
    requires |parts| >= 1
    ensures Join(parts + [part], mark) == Join(parts, mark) + [mark] + part
  {
    if |parts| > 1 {
      JoinAppend(parts[1..], part, mark);
      assert (parts + [part])[1..] == parts[1..] + [part];
    }
  }
}
