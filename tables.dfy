/** The pattern the material readers share: records 0 .. n-1 are decoded in
    index order and the first that raises ends the loop; the decoded records
    are then kept as a list, or stored into a dict under their names, where a
    later record replaces an earlier one of the same name. */
module Tables {
  import opened Outcome

  /** The records decoded before the loop ended, and how it ended. */
  datatype Run<T> = Run(items: seq<T>, outcome: Result<()>)

  /** The loop `for i in range(n)` over a record decoder `step`. */
  function Prefix<T>(step: nat -> Result<T>, n: nat): (p: Run<T>)
    ensures |p.items| <= n
    ensures p.outcome.Ok? <==> |p.items| == n
    decreases n
  {
    if n == 0 then Run([], Ok(()))
    else
      var p := Prefix(step, n - 1);
      if p.outcome.Err? then p
      else match step(n - 1)
        case Ok(x) => Run(p.items + [x], Ok(()))
        case Err(e) => Run(p.items, Err(e))
  }

  /** The loop ends normally exactly when every record decodes; its items
      are the records decoded, in order; a loop that raised ends with the
      exception of the first record that did. */
  lemma {:induction false} PrefixMeaning<T>(step: nat -> Result<T>, n: nat)
    ensures Prefix(step, n).outcome.Ok? <==> forall i :: 0 <= i < n ==> step(i).Ok?
    ensures forall i :: 0 <= i < |Prefix(step, n).items| ==> step(i) == Ok(Prefix(step, n).items[i])
    ensures Prefix(step, n).outcome.Err? ==> step(|Prefix(step, n).items|) == Err(Prefix(step, n).outcome.error)
  {
    if n > 0 {
      PrefixMeaning(step, n - 1);
    }
  }

  /** Item i of a run is what step i returned. */
  lemma PrefixAt<T>(step: nat -> Result<T>, n: nat, i: nat)
    requires i < |Prefix(step, n).items|
    ensures step(i) == Ok(Prefix(step, n).items[i])
  {
    PrefixMeaning(step, n);
  }

  /** One more step of a loop that has not failed yet. */
  lemma PrefixStep<T>(step: nat -> Result<T>, i: nat)
    requires Prefix(step, i).outcome.Ok?
    ensures step(i).Ok? ==> Prefix(step, i + 1) == Run(Prefix(step, i).items + [step(i).value], Ok(()))
    ensures step(i).Err? ==> Prefix(step, i + 1) == Run(Prefix(step, i).items, Err(step(i).error))
  {
  }

  /** Once the loop has failed, running it further changes nothing. */
  lemma {:induction false} PrefixStops<T>(step: nat -> Result<T>, i: nat, n: nat)
    requires i <= n && Prefix(step, i).outcome.Err?
    ensures Prefix(step, n) == Prefix(step, i)
    decreases n - i
  {
    if n > i {
      PrefixStops(step, i, n - 1);
    }
  }

  /** A loop that has run to its end after a failure at step i. */
  lemma PrefixFails<T>(step: nat -> Result<T>, i: nat, n: nat)
    requires i < n && Prefix(step, i).outcome.Ok? && step(i).Err?
    ensures Prefix(step, n) == Run(Prefix(step, i).items, Err(step(i).error))
  {
    PrefixStep(step, i);
    PrefixStops(step, i + 1, n);
  }

  /** The loop itself: step(0), step(1), ... up to n, stopping at the
      first that raises. */
  method RunSteps<T>(step: nat -> Result<T>, n: nat) returns (run: Run<T>)
    ensures run == Prefix(step, n)
  {
    var items := [];
    var i := 0;
    while i < n
      invariant i <= n && Prefix(step, i) == Run(items, Ok(()))
    {
      PrefixStep(step, i);
      var x := step(i);
      if x.Err? {
        PrefixFails(step, i, n);
        return Run(items, Err(x.error));
      }
      items := items + [x.value];
      i := i + 1;
    }
    run := Run(items, Ok(()));
  }

  /** The loop filling a dict: each (name, value) record stored under its
      name as soon as it is decoded. */
  method CollectTable<T>(step: nat -> Result<(string, T)>, n: nat) returns (run: Run<(string, T)>, t: map<string, T>)
    ensures run == Prefix(step, n) && t == Table(run.items)
  {
    t := map[];
    var i := 0;
    var items := [];
    while i < n
      invariant i <= n && Prefix(step, i) == Run(items, Ok(()))
      invariant t == Table(items)
    {
      PrefixStep(step, i);
      var x := step(i);
      if x.Err? {
        PrefixFails(step, i, n);
        return Run(items, Err(x.error)), t;
      }
      TableAppend(items, x.value);
      t := t[x.value.0 := x.value.1];
      items := items + [x.value];
      i := i + 1;
    }
    run := Run(items, Ok(()));
  }

  /** A dict filled from (name, value) pairs in order. */
  function Table<T>(items: seq<(string, T)>): (t: map<string, T>)
    ensures forall k :: k in t <==> exists i :: 0 <= i < |items| && items[i].0 == k
  {
    if items == [] then map[]
    else
      var last := items[|items| - 1];
      var t := Table(items[..|items| - 1]);
      assert forall i :: 0 <= i < |items| - 1 ==> items[..|items| - 1][i] == items[i];
      t[last.0 := last.1]
  }

  /** Storing one more pair. */
  lemma TableAppend<T>(items: seq<(string, T)>, x: (string, T))
    ensures Table(items + [x]) == Table(items)[x.0 := x.1]
  {
    assert (items + [x])[..|items|] == items;
  }

  /** Replacing the first element after a prefix extends the prefix. */
  lemma SpliceStep<T>(items: seq<T>, rest: seq<T>, x: T)
    requires |rest| > 0
    ensures (items + rest)[|items| := x] == (items + [x]) + rest[1..]
  {
  }

  /** The last pair of a name decides its value: a later entry of the same
      name replaces an earlier one. */
  lemma {:induction false} TableLastWins<T>(items: seq<(string, T)>, i: nat)
    requires i < |items|
    requires forall j :: i < j < |items| ==> items[j].0 != items[i].0
    ensures items[i].0 in Table(items) && Table(items)[items[i].0] == items[i].1
  {
    var front := items[..|items| - 1];
    if i < |items| - 1 {
      forall j | i < j < |front| ensures front[j].0 != front[i].0 {
      }
      TableLastWins(front, i);
    }
  }

  /** Every stored value is the value of a pair of that name. */
  lemma {:induction false} TableFrom<T>(items: seq<(string, T)>, k: string)
    requires k in Table(items)
    ensures exists i :: 0 <= i < |items| && items[i] == (k, Table(items)[k])
  {
    var front, last := items[..|items| - 1], items[|items| - 1];
    if last.0 != k {
      TableFrom(front, k);
      var i :| 0 <= i < |front| && front[i] == (k, Table(front)[k]);
      assert items[i] == front[i];
    }
  }

  /** A dict filled from (name, value) pairs in order, a pair whose name
      is empty skipped. */
  function Named<T>(items: seq<(string, T)>): (t: map<string, T>)
    ensures forall k :: k in t <==> k != "" && exists i :: 0 <= i < |items| && items[i].0 == k
  {
    if items == [] then map[]
    else
      var last := items[|items| - 1];
      var t := Named(items[..|items| - 1]);
      assert forall i :: 0 <= i < |items| - 1 ==> items[..|items| - 1][i] == items[i];
      if last.0 == "" then t else t[last.0 := last.1]
  }

  /** Storing one more pair by name. */
  lemma NamedAppend<T>(items: seq<(string, T)>, x: (string, T))
    ensures x.0 == "" ==> Named(items + [x]) == Named(items)
    ensures x.0 != "" ==> Named(items + [x]) == Named(items)[x.0 := x.1]
  {
    assert (items + [x])[..|items|] == items;
  }

  /** One more step of a loop that stores its pairs by name into a dict
      filled from prior. */
  lemma NamedStep<T>(prior: seq<(string, T)>, items: seq<(string, T)>, x: (string, T))
    ensures x.0 == "" ==> Named(prior + (items + [x])) == Named(prior + items)
    ensures x.0 != "" ==> Named(prior + (items + [x])) == Named(prior + items)[x.0 := x.1]
  {
    assert prior + (items + [x]) == prior + items + [x];
    NamedAppend(prior + items, x);
  }

  /** Among the pairs stored by name, the last of a non-empty name decides
      its value. */
  lemma {:induction false} NamedLastWins<T>(items: seq<(string, T)>, i: nat)
    requires i < |items| && items[i].0 != ""
    requires forall j :: i < j < |items| ==> items[j].0 != items[i].0
    ensures items[i].0 in Named(items) && Named(items)[items[i].0] == items[i].1
  {
    var front := items[..|items| - 1];
    if i < |items| - 1 {
      forall j | i < j < |front| ensures front[j].0 != front[i].0 {
      }
      NamedLastWins(front, i);
    }
  }

  /** Every value stored by name is the value of a pair of that name. */
  lemma {:induction false} NamedFrom<T>(items: seq<(string, T)>, k: string)
    requires k in Named(items)
    ensures exists i :: 0 <= i < |items| && items[i] == (k, Named(items)[k])
  {
    var front, last := items[..|items| - 1], items[|items| - 1];
    if last.0 != k {
      NamedFrom(front, k);
      var i :| 0 <= i < |front| && front[i] == (k, Named(front)[k]);
      assert items[i] == front[i];
    }
  }
}
