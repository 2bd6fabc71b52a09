/** The component prompt of src/prompts.ts. The checkbox dialog itself is not
    modelled: its answer is given as one tick per offered choice, and inquirer
    returns the values of the ticked choices in the order they were offered. */
module Prompts {
  import opened Types
  import opened Constants

  /** The value of the "install all components" choice. */
  const AllSentinel: string := "all"

  /** The values offered by the checkbox prompt: the sentinel first, then the catalog in order. */
  const OfferedChoices: seq<string> := [AllSentinel] + CatalogValues

  predicate Distinct(s: seq<string>)
  {
    forall i, j :: 0 <= i < j < |s| ==> s[i] != s[j]
  }

  /** The choices whose tick is set, in the order offered; a missing tick counts as unset. */
  function Ticked(choices: seq<string>, ticks: seq<bool>): (r: seq<string>)
    ensures |r| <= |choices|
    ensures forall x :: x in r ==> x in choices
    decreases |choices|
  {
    if choices == [] then []
    else
      var rest := Ticked(choices[1..], if ticks == [] then [] else ticks[1..]);
      assert forall x :: x in choices[1..] ==> x in choices;
      (if ticks != [] && ticks[0] then [choices[0]] else []) + rest
  }

  /** Picking from distinct choices picks each at most once. */
  lemma {:induction false} TickedDistinct(choices: seq<string>, ticks: seq<bool>)
    requires Distinct(choices)
    ensures Distinct(Ticked(choices, ticks))
    decreases |choices|
  {
    if choices != [] {
      var tail := if ticks == [] then [] else ticks[1..];
      var rest := Ticked(choices[1..], tail);
      TickedDistinct(choices[1..], tail);
      assert choices[0] !in choices[1..] by {
        forall k | 0 <= k < |choices[1..]| ensures choices[1..][k] != choices[0] {
          assert choices[1..][k] == choices[k + 1];
        }
      }
      assert choices[0] !in rest;
      var r := Ticked(choices, ticks);
      if ticks != [] && ticks[0] {
        assert r == [choices[0]] + rest;
        forall i, j | 0 <= i < j < |r| ensures r[i] != r[j] {
          if i == 0 {
            assert r[j] == rest[j - 1];
          } else {
            assert r[i] == rest[i - 1] && r[j] == rest[j - 1];
          }
        }
      } else {
        assert r == rest;
      }
    }
  }

  /** Ticking everything picks every choice. */
  lemma {:induction false} TickedEverything(choices: seq<string>, ticks: seq<bool>)
    requires |ticks| >= |choices|
    requires forall i :: 0 <= i < |ticks| ==> ticks[i]
    ensures Ticked(choices, ticks) == choices
    decreases |choices|
  {
    if choices != [] {
      TickedEverything(choices[1..], ticks[1..]);
      assert [choices[0]] + choices[1..] == choices;
    }
  }

  /** The post-processing of the raw answer: a ticked `all` stands for the whole
      catalog, in catalog order, whatever else is ticked; otherwise the answer is
      returned as it is. The result never contains the sentinel. */
  function ExpandSelection(selected: seq<string>): (r: seq<string>)
    ensures AllSentinel !in r
    ensures AllSentinel in selected ==> r == CatalogValues
    ensures AllSentinel !in selected ==> r == selected
  {
    SentinelNotInCatalog();
    if AllSentinel in selected then CatalogValues else selected
  }

  /** `promptForComponents`, with the dialog replaced by its ticks. */
  function PromptForComponents(ticks: seq<bool>): (r: seq<string>)
    ensures AllSentinel !in r
    ensures forall v :: v in r ==> v in CatalogValues
  {
    ExpandSelection(Ticked(OfferedChoices, ticks))
  }

  // ---------------------------------------------------------------------------
  // what a prompt can return

  /** The offered choices are the sentinel and the catalog, all distinct. */
  lemma OfferedChoicesDistinct()
    ensures |OfferedChoices| == 47
    ensures Distinct(OfferedChoices)
  {
    CatalogValuesDistinct();
    SentinelNotInCatalog();
    forall i, j | 0 <= i < j < |OfferedChoices| ensures OfferedChoices[i] != OfferedChoices[j] {
      assert OfferedChoices[j] == CatalogValues[j - 1];
      if i > 0 {
        assert OfferedChoices[i] == CatalogValues[i - 1];
      }
    }
  }

  /** Ticking `all` gives the whole catalog; otherwise the ticked catalog entries, in catalog order. */
  lemma PromptSelection(ticks: seq<bool>)
    ensures ticks != [] && ticks[0] ==> PromptForComponents(ticks) == CatalogValues
    ensures !(ticks != [] && ticks[0]) ==>
      PromptForComponents(ticks) == Ticked(CatalogValues, if ticks == [] then [] else ticks[1..])
  {
    var picked := Ticked(OfferedChoices, ticks);
    assert OfferedChoices[0] == AllSentinel && OfferedChoices[1..] == CatalogValues;
    var rest := Ticked(CatalogValues, if ticks == [] then [] else ticks[1..]);
    SentinelNotInCatalog();
    if ticks != [] && ticks[0] {
      assert AllSentinel in picked;
    } else {
      assert picked == rest;
    }
  }

  /** Whatever is ticked, the result lists catalog values without repeats. */
  lemma PromptResultDistinct(ticks: seq<bool>)
    ensures Distinct(PromptForComponents(ticks))
  {
    CatalogValuesDistinct();
    PromptSelection(ticks);
    TickedDistinct(CatalogValues, if ticks == [] then [] else ticks[1..]);
  }

  /** Ticking every catalog entry without `all` gives the same result as ticking `all`. */
  lemma EveryEntryIsAll(ticks: seq<bool>)
    requires |ticks| == |OfferedChoices| && !ticks[0]
    requires forall i :: 1 <= i < |ticks| ==> ticks[i]
    ensures PromptForComponents(ticks) == CatalogValues
  {
    PromptSelection(ticks);
    TickedEverything(CatalogValues, ticks[1..]);
  }
}
