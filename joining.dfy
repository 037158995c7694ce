/**
 * Building a separated list the way the renderer's loops do: start empty, and before
 * every element but the first append the separator. A failing element (an exception
 * thrown while rendering it) stops the loop, so the first failure is the outcome.
 */
module Joining {
  import opened Wrappers

  /** The separator every list rendered by PrintResult uses. */
  const Separator: string := ", "

  /** `parts` joined with `sep` between neighbours (reference definition). */
  function Join(sep: string, parts: seq<string>): string
  {
    if |parts| == 0 then ""
    else if |parts| == 1 then parts[0]
    else Join(sep, parts[..|parts| - 1]) + sep + parts[|parts| - 1]
  }

  predicate AllSucceed<T, E>(items: seq<Result<T, E>>)
  {
    forall i :: 0 <= i < |items| ==> items[i].Success?
  }

  function Values<T, E>(items: seq<Result<T, E>>): (vs: seq<T>)
    requires AllSucceed(items)
    ensures |vs| == |items|
    ensures forall i :: 0 <= i < |items| ==> vs[i] == items[i].value
  {
    seq(|items|, i requires 0 <= i < |items| => items[i].value)
  }

  /** One step of the loop: append `sep` and `item` to `acc`, unless something already failed. */
  function Extend<E>(acc: Result<string, E>, sep: string, item: Result<string, E>): Result<string, E>
  {
    if acc.Failure? then acc
    else if item.Failure? then Failure(item.error)
    else Success(acc.value + sep + item.value)
  }

  /**
   * What the loop over `items` has built after the last item: the separator is empty
   * before the first item and `Separator` before every later one.
   */
  function JoinResults<E>(items: seq<Result<string, E>>): Result<string, E>
  {
    if |items| == 0 then Success("")
    else
      var init := items[..|items| - 1];
      Extend(JoinResults(init), if |init| == 0 then "" else Separator, items[|items| - 1])
  }

  /** The loop succeeds exactly when every item does, and then builds the joined values. */
  lemma {:induction false} JoinResultsSucceeds<E>(items: seq<Result<string, E>>)
    ensures JoinResults(items).Success? <==> AllSucceed(items)
    ensures AllSucceed(items) ==> JoinResults(items).value == Join(Separator, Values(items))
  {
    if |items| > 0 {
      var init := items[..|items| - 1];
      JoinResultsSucceeds(init);
      if AllSucceed(items) {
        assert AllSucceed(init);
        assert Values(init) == Values(items)[..|items| - 1];
      } else if AllSucceed(init) {
        assert items[|items| - 1].Failure?;
      }
    }
  }

  /** Once the loop has failed, the remaining items do not change the outcome. */
  lemma {:induction false} JoinResultsStaysFailed<E>(items: seq<Result<string, E>>, k: nat)
    requires k <= |items|
    requires JoinResults(items[..k]).Failure?
    ensures JoinResults(items) == JoinResults(items[..k])
  {
    if k < |items| {
      var init := items[..|items| - 1];
      assert init[..k] == items[..k];
      JoinResultsStaysFailed(init, k);
    } else {
      assert items[..k] == items;
    }
  }

  /** The first failing item decides the outcome of the whole loop. */
  lemma JoinResultsFirstFailure<E>(items: seq<Result<string, E>>, k: nat)
    requires k < |items| && items[k].Failure?
    requires JoinResults(items[..k]).Success?
    ensures JoinResults(items) == Failure(items[k].error)
  {
    assert items[..k + 1][..k] == items[..k];
    JoinResultsStaysFailed(items, k + 1);
  }

  /** Appending one more item is one more step of the loop. */
  lemma JoinResultsStep<E>(items: seq<Result<string, E>>, k: nat)
    requires k < |items|
    ensures JoinResults(items[..k + 1])
         == Extend(JoinResults(items[..k]), if k == 0 then "" else Separator, items[k])
  {
    assert items[..k + 1][..k] == items[..k];
  }
}
