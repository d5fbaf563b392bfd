/**
 * `sort_value_list` of the naux-rs runtime: the `!sort` action's list is
 * read as numbers and handed to the algorithm its name selects, quick sort
 * being the default for any unknown name.
 */
module RsSort {
  import opened Wrappers
  import opened RsValue
  import opened RsSortSpec
  import RsSortSimple
  import RsSortMerge
  import RsSortHeap
  import RsSortQuick
  import RsSortCounting

  /** `value_list_as_numbers`. */
  function ValueListAsNumbers(list: Value): (r: Result<seq<real>, string>)
    ensures !list.List? <==> r == Err("Expected a list")
    ensures list.List? && (exists k :: 0 <= k < |list.items| && !list.items[k].Number?) <==> r == Err("List must contain only numbers")
    ensures r.Ok? ==> |r.value| == |list.items| && forall k :: 0 <= k < |r.value| ==> list.items[k] == Number(r.value[k])
  {
    if !list.List? then Err("Expected a list")
    else AsNumbers(list.items)
  }

  function AsNumbers(items: seq<Value>): (r: Result<seq<real>, string>)
    ensures (exists k :: 0 <= k < |items| && !items[k].Number?) <==> r == Err("List must contain only numbers")
    ensures r.Err? ==> r == Err("List must contain only numbers")
    ensures r.Ok? ==> |r.value| == |items| && forall k :: 0 <= k < |r.value| ==> items[k] == Number(r.value[k])
  {
    if |items| == 0 then Ok([])
    else if !items[0].Number? then Err("List must contain only numbers")
    else
      match AsNumbers(items[1..])
      case Err(e) =>
        var k :| 0 <= k < |items[1..]| && !items[1..][k].Number?;
        assert !items[k + 1].Number?;
        Err(e)
      case Ok(rest) =>
        assert forall k :: 0 <= k < |items| && k > 0 ==> items[k] == items[1..][k - 1];
        Ok([items[0].n] + rest)
  }

  function Numbers(xs: seq<real>): (r: seq<Value>)
    ensures |r| == |xs| && forall k :: 0 <= k < |xs| ==> r[k] == Number(xs[k])
  {
    if |xs| == 0 then [] else [Number(xs[0])] + Numbers(xs[1..])
  }

  predicate IsCounting(algo: string)
  {
    algo == "counting" || algo == "countingsort"
  }

  /** The i64 conditions counting sort places on its input, when it is the algorithm chosen. */
  predicate CountingFits(list: Value)
  {
    ValueListAsNumbers(list).Ok? ==>
      var xs := ValueListAsNumbers(list).value;
      (forall k :: 0 <= k < |xs| ==> RsSortCounting.I64Min as real <= xs[k] <= RsSortCounting.I64Max as real)
      && (forall i, j :: 0 <= i < |xs| && 0 <= j < |xs| ==> xs[i] - xs[j] < RsSortCounting.I64Max as real)
  }

  /** `sort_value_list`. */
  method SortValueList(list: Value, algo: string) returns (r: Result<seq<Value>, string>)
    requires IsCounting(algo) ==> CountingFits(list)
    ensures ValueListAsNumbers(list).Err? ==> r == Err(ValueListAsNumbers(list).error)
    ensures ValueListAsNumbers(list).Ok? && !IsCounting(algo) ==> r.Ok?
    ensures ValueListAsNumbers(list).Ok? && IsCounting(algo) ==>
      var c := RsSortCounting.CountingSort(ValueListAsNumbers(list).value);
      (c.Err? ==> r == Err(c.error)) && (c.Ok? ==> r == Ok(Numbers(c.value)))
    ensures r.Ok? ==> exists out :: SortOf(out, ValueListAsNumbers(list).value) && r.value == Numbers(out)
  {
    var parsed := ValueListAsNumbers(list);
    if parsed.Err? {
      return Err(parsed.error);
    }
    var nums := parsed.value;
    var sorted: seq<real>;
    if algo == "bubble" {
      sorted := RsSortSimple.BubbleSort(nums);
    } else if algo == "selection" {
      sorted := RsSortSimple.SelectionSort(nums);
    } else if algo == "insertion" {
      sorted := RsSortSimple.InsertionSort(nums);
    } else if algo == "merge" || algo == "mergesort" {
      sorted := RsSortMerge.MergeSort(nums);
    } else if algo == "heap" || algo == "heapsort" {
      sorted := RsSortHeap.HeapSort(nums);
    } else if IsCounting(algo) {
      var c := RsSortCounting.CountingSort(nums);
      if c.Err? {
        return Err(c.error);
      }
      sorted := c.value;
    } else {
      sorted := RsSortQuick.QuickSort(nums);
    }
    r := Ok(Numbers(sorted));
  }

  /** Every algorithm that succeeds returns the same list: the ascending arrangement of the input. */
  lemma SortResultUnique(list: Value, out1: seq<real>, out2: seq<real>)
    requires ValueListAsNumbers(list).Ok?
    requires SortOf(out1, ValueListAsNumbers(list).value) && SortOf(out2, ValueListAsNumbers(list).value)
    ensures Numbers(out1) == Numbers(out2)
  {
    AlgorithmsAgree(out1, out2, ValueListAsNumbers(list).value);
  }
}
