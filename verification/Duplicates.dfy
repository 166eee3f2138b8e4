/** src/utils/arrayDuplicatCheck.ts. */
module Duplicates {
  import opened Common

  // `new Set(array).size !== array.length`.
  function CheckArrayForDuplicates<T(==)>(list: seq<T>): bool {
    |Elements(list)| != |list|
  }

  lemma {:induction false} SetSize<T>(list: seq<T>)
    ensures |Elements(list)| <= |list|
    ensures |Elements(list)| == |list| <==> Distinct(list)
  {
    if |list| > 0 {
      var init, last := list[..|list| - 1], list[|list| - 1];
      SetSize(init);
      assert list == init + [last];
      assert Elements(list) == Elements(init) + {last};
      if last in init {
        assert Elements(list) == Elements(init);
        var i :| 0 <= i < |init| && init[i] == last;
        assert list[i] == list[|list| - 1];
      } else {
        assert forall i | 0 <= i < |init| :: list[i] == init[i] && init[i] in init;
      }
    }
  }

  // Comparing the size of the set with the length detects exactly the repetitions.
  lemma DuplicatesFound<T>(list: seq<T>)
    ensures CheckArrayForDuplicates(list) <==> exists i, j :: 0 <= i < j < |list| && list[i] == list[j]
  {
    SetSize(list);
  }
}
