/** Concatenation of a list of sequences. */
module Sequences {

  function Join<T>(parts: seq<seq<T>>): seq<T> {
    if parts == [] then [] else Join(parts[..|parts| - 1]) + parts[|parts| - 1]
  }

  lemma {:induction false} JoinAppend<T>(parts: seq<seq<T>>, part: seq<T>)
    ensures Join(parts + [part]) == Join(parts) + part
  {
    assert (parts + [part])[..|parts|] == parts;
  }

  lemma {:induction false} JoinFront<T>(part: seq<T>, parts: seq<seq<T>>)
    ensures Join([part] + parts) == part + Join(parts)
    decreases |parts|
  {
    var all := [part] + parts;
    if parts == [] {
      assert all[..0] == [];
    } else {
      assert all[..|all| - 1] == [part] + parts[..|parts| - 1];
      JoinFront(part, parts[..|parts| - 1]);
    }
  }

  lemma {:induction false} JoinJoin<T>(first: seq<seq<T>>, second: seq<seq<T>>)
    ensures Join(first + second) == Join(first) + Join(second)
    decreases |second|
  {
    if second == [] {
      assert first + second == first;
    } else {
      var init, last := second[..|second| - 1], second[|second| - 1];
      assert first + second == (first + init) + [last];
      assert second == init + [last];
      JoinJoin(first, init);
      JoinAppend(first + init, last);
      JoinAppend(init, last);
    }
  }
}
