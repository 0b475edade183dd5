// The activity list the builder reports to its host: the names of the jobs
// in the pool, with compile jobs given a user-facing label and the builder's
// own housekeeping jobs left out.

module Activity {
  import opened Paths

  /** A job named after a compilable source file. */
  predicate IsSourceJob(name: string)
  {
    EndsWithIgnoreCase(name, ".cpp") || EndsWithIgnoreCase(name, ".c") || EndsWithIgnoreCase(name, ".mm")
  }

  /** A name that starts with "__", the convention for housekeeping jobs. */
  predicate IsInternal(name: string)
  {
    |name| >= 2 && name[..2] == "__"
  }

  /** What one job contributes to the activity list. */
  function Entry(name: string): (r: seq<string>)
  {
    if IsSourceJob(name) then ["Compile " + name]
    else if !IsInternal(name) then [name]
    else []
  }

  /** The activity list for the pool's job names, in pool order. */
  function DisplayList(names: seq<string>): (r: seq<string>)
  {
    if names == [] then []
    else DisplayList(names[..|names| - 1]) + Entry(names[|names| - 1])
  }

  /** The loop of the UpdateActivities event: walks the job names in order and
      appends each one's entry to the final list. */
  method BuildActivityList(list: seq<string>) returns (finalList: seq<string>)
    ensures finalList == DisplayList(list)
  {
    finalList := [];
    var i := 0;
    while i < |list|
      invariant 0 <= i <= |list|
      invariant finalList == DisplayList(list[..i])
    {
      var job := list[i];
      if EndsWithIgnoreCase(job, ".cpp") || EndsWithIgnoreCase(job, ".c") || EndsWithIgnoreCase(job, ".mm") {
        finalList := finalList + ["Compile " + job];
      } else if !(|job| >= 2 && job[..2] == "__") {
        finalList := finalList + [job];
      }
      assert list[..i + 1][..i] == list[..i];
      i := i + 1;
    }
    assert list[..i] == list;
  }

  /** The activity list of a pool is the list of its first jobs followed by
      the list of the others: the derivation keeps the pool's order. */
  lemma {:induction false} DisplayListAppend(a: seq<string>, b: seq<string>)
    ensures DisplayList(a + b) == DisplayList(a) + DisplayList(b)
    decreases |b|
  {
    if b != [] {
      var b' := b[..|b| - 1];
      assert (a + b)[..|a + b| - 1] == a + b';
      assert (a + b)[|a + b| - 1] == b[|b| - 1];
      DisplayListAppend(a, b');
    } else {
      assert a + b == a;
    }
  }

  /** Each job's entry appears in the activity list of any pool holding it. */
  lemma {:induction false} EntryShows(names: seq<string>, i: int)
    requires 0 <= i < |names|
    ensures forall x :: x in Entry(names[i]) ==> x in DisplayList(names)
    decreases |names|
  {
    var init := names[..|names| - 1];
    assert DisplayList(names) == DisplayList(init) + Entry(names[|names| - 1]);
    if i < |names| - 1 {
      EntryShows(init, i);
      assert init[i] == names[i];
    }
  }

  /** Every compile job shows as "Compile <name>", and every other job whose
      name does not start with "__" shows under its own name. */
  lemma DisplayListShows(names: seq<string>)
    ensures forall i :: 0 <= i < |names| && IsSourceJob(names[i]) ==>
      "Compile " + names[i] in DisplayList(names)
    ensures forall i :: 0 <= i < |names| && !IsSourceJob(names[i]) && !IsInternal(names[i]) ==>
      names[i] in DisplayList(names)
  {
    forall i | 0 <= i < |names| && IsSourceJob(names[i])
      ensures "Compile " + names[i] in DisplayList(names)
    {
      EntryShows(names, i);
      assert Entry(names[i]) == ["Compile " + names[i]];
    }
    forall i | 0 <= i < |names| && !IsSourceJob(names[i]) && !IsInternal(names[i])
      ensures names[i] in DisplayList(names)
    {
      EntryShows(names, i);
      assert Entry(names[i]) == [names[i]];
    }
  }

  /** Nothing shows that does not come from a job in the pool, and the list is
      never longer than the pool. */
  lemma {:induction false} DisplayListOnlyFromJobs(names: seq<string>)
    ensures forall x :: x in DisplayList(names) ==>
      exists i :: 0 <= i < |names| && x in Entry(names[i])
    ensures |DisplayList(names)| <= |names|
    decreases |names|
  {
    if names != [] {
      var n := |names| - 1;
      var init := names[..n];
      DisplayListOnlyFromJobs(init);
      assert DisplayList(names) == DisplayList(init) + Entry(names[n]);
      forall x | x in DisplayList(names)
        ensures exists i :: 0 <= i < |names| && x in Entry(names[i])
      {
        if x in DisplayList(init) {
          var i :| 0 <= i < |init| && x in Entry(init[i]);
          assert names[i] == init[i];
        } else {
          assert x in Entry(names[n]);
        }
      }
    }
  }

  /** A name whose last character is not one a source extension ends with is
      not a compile job. */
  lemma NotSourceByLastChar(x: string)
    requires |x| > 0
    requires Lower(x[|x| - 1]) != 'p' && Lower(x[|x| - 1]) != 'c' && Lower(x[|x| - 1]) != 'm'
    ensures !IsSourceJob(x)
  {
    var last := Lower(x[|x| - 1]);
    NotEndsWith(x, ".cpp", last);
    NotEndsWith(x, ".c", last);
    NotEndsWith(x, ".mm", last);
  }

  lemma NotEndsWith(x: string, suffix: string, last: char)
    requires |x| > 0 && |suffix| > 0 && last == Lower(x[|x| - 1])
    requires last != Lower(suffix[|suffix| - 1])
    ensures !EndsWithIgnoreCase(x, suffix)
  {
    if |suffix| <= |x| {
      var t := x[|x| - |suffix|..];
      assert t[|t| - 1] == x[|x| - 1];
    }
  }

  /** A pool whose job names all start with "__" and none of which is a
      compile job reports nothing. */
  lemma {:induction false} HousekeepingHidden(names: seq<string>)
    requires forall i :: 0 <= i < |names| ==> IsInternal(names[i]) && !IsSourceJob(names[i])
    ensures DisplayList(names) == []
    decreases |names|
  {
    if names != [] {
      var n := |names| - 1;
      HousekeepingHidden(names[..n]);
      assert Entry(names[n]) == [];
    }
  }

  /** The builder's own housekeeping jobs (clean, run, activity update) have
      such names. */
  lemma HousekeepingNamesInternal()
    ensures forall x :: x in ["__clean", "__run", "__activity"] ==> IsInternal(x) && !IsSourceJob(x)
  {
    NotSourceByLastChar("__clean");
    NotSourceByLastChar("__run");
    NotSourceByLastChar("__activity");
    assert "__clean"[..2] == "__" && "__run"[..2] == "__" && "__activity"[..2] == "__";
  }

  /** A job whose name starts with "__" and is not a compile job leaves the
      activity list as if it were not in the pool, wherever it stands. */
  lemma {:induction false} InternalDropped(names: seq<string>, i: int)
    requires 0 <= i < |names| && IsInternal(names[i]) && !IsSourceJob(names[i])
    ensures DisplayList(names) == DisplayList(names[..i]) + DisplayList(names[i + 1..])
  {
    var before, x, after := names[..i], names[i], names[i + 1..];
    assert DisplayList([x]) == [] by {
      assert [x][..0] == [] && Entry(x) == [];
    }
    calc {
      DisplayList(names);
    == { assert names == (before + [x]) + after; }
      DisplayList((before + [x]) + after);
    == { DisplayListAppend(before + [x], after); }
      DisplayList(before + [x]) + DisplayList(after);
    == { DisplayListAppend(before, [x]); }
      DisplayList(before) + DisplayList(after);
    }
  }
}
