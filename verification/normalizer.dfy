/** The named-parameter front end of MapRowsN: namedParameters, then
    substitute, then flattenArgs, and the theorem that the rewritten text
    and the flattened arguments line up slot for slot. */
module Normalizer {
  import opened Wrappers
  import opened Text
  import opened Values
  import opened Params
  import opened Substitution
  import opened Flatten

  predicate NoDuplicates(names: seq<string>) {
    forall i, j :: 0 <= i < j < |names| ==> names[i] != names[j]
  }

  function ToSet(names: seq<string>): (r: set<string>)
    ensures forall n :: n in r <==> n in names
  {
    if |names| == 0 then {} else {names[0]} + ToSet(names[1..])
  }

  /** A sequence has as many distinct elements as entries exactly when no
      element repeats. */
  lemma {:induction false} DistinctCount(names: seq<string>)
    ensures |ToSet(names)| <= |names|
    ensures |ToSet(names)| == |names| <==> NoDuplicates(names)
    decreases |names|
  {
    if |names| > 0 {
      DistinctCount(names[1..]);
      var rest := ToSet(names[1..]);
      if names[0] in names[1..] {
        assert ToSet(names) == rest;
        var j :| 0 <= j < |names[1..]| && names[1..][j] == names[0];
        assert names[0] == names[j + 1];
      } else {
        assert |ToSet(names)| == 1 + |rest|;
        if NoDuplicates(names[1..]) {
          forall i, j | 0 <= i < j < |names|
            ensures names[i] != names[j]
          {
            if i == 0 {
              assert names[j] == names[1..][j - 1];
            } else {
              assert names[i] == names[1..][i - 1] && names[j] == names[1..][j - 1];
            }
          }
        }
      }
    }
  }

  /** The entries namedParameters builds have exactly the placeholder names
      as keys, so substitute can fail only by a count mismatch, and that
      happens exactly when some name repeats. */
  lemma NamedEntriesCount(q: string, args: map<string, Value>)
    ensures var names := Placeholders(Fields(q));
            && AllBound(names, NamedParameters(q, args))
            && |NamedParameters(q, args)| == |ToSet(names)|
  {
    var names := Placeholders(Fields(q));
    var entries := NamedParameters(q, args);
    assert entries.Keys == ToSet(names);
  }

  /** The MapRowsN front end: the rewritten query and the positional
      arguments, or the substitution error (the query is then not run).
      Since every placeholder gets an entry, a name missing from `args` is
      bound to nil rather than reported, and the only failure is a repeated
      placeholder name. */
  function Normalize(q: string, args: map<string, Value>): (r: Result<(string, seq<Value>), SubstError>)
    ensures r.Success? <==> NoDuplicates(Placeholders(Fields(q)))
    ensures r.Failure? ==>
              r.error == CountMismatch(|ToSet(Placeholders(Fields(q)))|, |Placeholders(Fields(q))|)
  {
    var entries := NamedParameters(q, args);
    NamedParametersDistinct(q, args);
    NamedEntriesCount(q, args);
    DistinctCount(Placeholders(Fields(q)));
    match Substitute(q, entries)
    case Failure(e) => Failure(e)
    case Success(text) => Success((text, FlattenArgs(entries)))
  }

  /** The values the placeholders are bound to, each expanded, in order. */
  function Bound(names: seq<string>, args: map<string, Value>): (r: seq<seq<Value>>)
    ensures |r| == |names|
    ensures forall i :: 0 <= i < |names| ==> r[i] == Expand(ArgOf(args, names[i]))
  {
    if |names| == 0 then [] else [Expand(ArgOf(args, names[0]))] + Bound(names[1..], args)
  }

  function Concat(xss: seq<seq<Value>>): seq<Value> {
    if |xss| == 0 then [] else xss[0] + Concat(xss[1..])
  }

  /** Concatenation distributes over a split of the parts. */
  lemma {:induction false} ConcatSplit(xss: seq<seq<Value>>, i: nat)
    requires i <= |xss|
    ensures Concat(xss) == Concat(xss[..i]) + Concat(xss[i..])
    decreases i
  {
    if i == 0 {
      assert xss[..0] == [];
      assert xss[0..] == xss;
    } else {
      ConcatSplit(xss[1..], i - 1);
      assert xss[..i][1..] == xss[1..][..i - 1];
      assert xss[1..][i - 1..] == xss[i..];
    }
  }

  /** The entries of the names, in the order of the names. */
  function EntriesFor(names: seq<string>, entries: map<string, ParamEntry>): (r: seq<ParamEntry>)
    requires AllBound(names, entries)
    ensures |r| == |names|
    ensures forall i :: 0 <= i < |names| ==> r[i] == entries[names[i]]
  {
    if |names| == 0 then [] else [entries[names[0]]] + EntriesFor(names[1..], entries)
  }

  lemma {:induction false} ExpandAllBound(names: seq<string>, args: map<string, Value>, entries: map<string, ParamEntry>)
    requires AllBound(names, entries)
    requires forall n :: n in names ==> entries[n].val == ArgOf(args, n)
    ensures ExpandAll(EntriesFor(names, entries)) == Concat(Bound(names, args))
    decreases |names|
  {
    if |names| > 0 {
      ExpandAllBound(names[1..], args, entries);
      assert EntriesFor(names, entries)[1..] == EntriesFor(names[1..], entries);
      assert Bound(names, args)[1..] == Bound(names[1..], args);
    }
  }

  lemma {:induction false} SlotsBeforeRun(names: seq<string>, args: map<string, Value>, entries: map<string, ParamEntry>)
    requires AllBound(names, entries)
    requires forall n :: n in names ==> entries[n].len == SlotCount(ArgOf(args, n))
    ensures SumLens(names, entries) == |Concat(Bound(names, args))|
    decreases |names|
  {
    if |names| > 0 {
      SlotsBeforeRun(names[1..], args, entries);
      assert Bound(names, args)[1..] == Bound(names[1..], args);
    }
  }

  lemma BoundPrefix(names: seq<string>, args: map<string, Value>, i: nat)
    requires i <= |names|
    ensures Bound(names[..i], args) == Bound(names, args)[..i]
  {
  }

  lemma EntriesForIncrease(names: seq<string>, args: map<string, Value>, entries: map<string, ParamEntry>)
    requires AllBound(names, entries)
    requires forall i :: 0 <= i < |names| ==> entries[names[i]] == EntryAt(names, args, 0, i)
    ensures StrictlyIncreasing(EntriesFor(names, entries))
  {
    var s := EntriesFor(names, entries);
    forall i, j | 0 <= i < j < |s|
      ensures s[i].pos < s[j].pos
    {
      PositionsIncrease(names, args, 0, i, j);
    }
  }

  lemma EntriesForLists(names: seq<string>, entries: map<string, ParamEntry>)
    requires forall n :: n in entries <==> n in names
    ensures AllBound(names, entries)
    ensures Lists(entries, EntriesFor(names, entries))
  {
    var s := EntriesFor(names, entries);
    forall e | e in s
      ensures exists k :: k in entries && entries[k] == e
    {
      var i :| 0 <= i < |s| && s[i] == e;
      assert entries[names[i]] == e;
    }
    forall k | k in entries
      ensures entries[k] in s
    {
      var i :| 0 <= i < |names| && names[i] == k;
      assert s[i] == entries[k];
    }
  }

  /** With distinct names every occurrence is the last one, so the entry of
      the i-th placeholder is the one built at occurrence i. */
  lemma EntriesAtOccurrences(q: string, args: map<string, Value>)
    requires NoDuplicates(Placeholders(Fields(q)))
    ensures var names := Placeholders(Fields(q));
            var entries := NamedParameters(q, args);
            && AllBound(names, entries)
            && forall i :: 0 <= i < |names| ==> entries[names[i]] == EntryAt(names, args, 0, i)
  {
    var names := Placeholders(Fields(q));
    assert forall i :: 0 <= i < |names| ==> IsLast(names, i);
  }

  /** With distinct names, each entry holds its name's argument and that
      argument's slot count. */
  lemma EntriesHoldArguments(q: string, args: map<string, Value>)
    requires NoDuplicates(Placeholders(Fields(q)))
    ensures var names := Placeholders(Fields(q));
            var entries := NamedParameters(q, args);
            && AllBound(names, entries)
            && forall n :: n in names ==> entries[n].val == ArgOf(args, n) && entries[n].len == SlotCount(ArgOf(args, n))
  {
    var names := Placeholders(Fields(q));
    var entries := NamedParameters(q, args);
    EntriesAtOccurrences(q, args);
    forall n | n in names
      ensures entries[n].val == ArgOf(args, n) && entries[n].len == SlotCount(ArgOf(args, n))
    {
      var i :| 0 <= i < |names| && names[i] == n;
      assert entries[names[i]] == EntryAt(names, args, 0, i);
    }
  }

  /** With distinct names, namedParameters lists its entries by position in
      placeholder order, each holding the value bound to its name. */
  lemma EntriesInPlaceholderOrder(q: string, args: map<string, Value>)
    requires NoDuplicates(Placeholders(Fields(q)))
    ensures var names := Placeholders(Fields(q));
            var entries := NamedParameters(q, args);
            && AllBound(names, entries)
            && DistinctPositions(entries)
            && SortedEntries(entries) == EntriesFor(names, entries)
            && (forall n :: n in names ==> entries[n].val == ArgOf(args, n) && entries[n].len == SlotCount(ArgOf(args, n)))
  {
    var names := Placeholders(Fields(q));
    var entries := NamedParameters(q, args);
    EntriesAtOccurrences(q, args);
    NamedParametersDistinct(q, args);
    assert |entries| == |names| by {
      NamedEntriesCount(q, args);
      DistinctCount(names);
    }
    assert SortedEntries(entries) == EntriesFor(names, entries) by {
      EntriesForIncrease(names, args, entries);
      EntriesForLists(names, entries);
      SortedUnique(SortedEntries(entries), EntriesFor(names, entries));
    }
    EntriesHoldArguments(q, args);
  }

  /** The concatenation around its i-th part. */
  lemma ConcatAround(xss: seq<seq<Value>>, i: nat)
    requires i < |xss|
    ensures Concat(xss) == Concat(xss[..i]) + xss[i] + Concat(xss[i + 1..])
  {
    ConcatSplit(xss, i);
    assert xss[i..][1..] == xss[i + 1..];
  }

  /** The slots of the placeholders before index i are as many as the
      arguments their values expand to. */
  lemma SlotsBefore(names: seq<string>, args: map<string, Value>, entries: map<string, ParamEntry>, i: nat)
    requires AllBound(names, entries)
    requires forall n :: n in names ==> entries[n].len == SlotCount(ArgOf(args, n))
    requires i <= |names|
    ensures SumLens(names[..i], entries) == |Concat(Bound(names, args)[..i])|
  {
    SlotsBeforeRun(names[..i], args, entries);
    BoundPrefix(names, args, i);
  }

  /** The arguments of the placeholder at index i form the stretch of the
      concatenation that starts right after those of the placeholders
      before it. */
  lemma ArgumentsOfPlaceholder(names: seq<string>, args: map<string, Value>, entries: map<string, ParamEntry>,
                               first: nat, i: nat)
    requires AllBound(names, entries)
    requires forall n :: n in names ==> entries[n].len == SlotCount(ArgOf(args, n))
    requires i < |names|
    requires first == 1 + SumLens(names[..i], entries)
    ensures first - 1 + |Expand(ArgOf(args, names[i]))| <= |Concat(Bound(names, args))|
    ensures Concat(Bound(names, args))[first - 1 .. first - 1 + |Expand(ArgOf(args, names[i]))|]
            == Expand(ArgOf(args, names[i]))
  {
    var xss := Bound(names, args);
    var e := xss[i];
    SlotsBefore(names, args, entries, i);
    ConcatAround(xss, i);
    var pre := Concat(xss[..i]);
    var post := Concat(xss[i + 1..]);
    assert (pre + e + post)[|pre| .. |pre| + |e|] == e;
  }

  /** The run standing for placeholder i covers exactly the stretch of the
      positional arguments that the value bound to it expands to. */
  lemma RunCovers(names: seq<string>, args: map<string, Value>, entries: map<string, ParamEntry>,
                  run: Piece, flat: seq<Value>, i: nat)
    requires AllBound(names, entries)
    requires forall n :: n in names ==> entries[n].len == SlotCount(ArgOf(args, n))
    requires flat == Concat(Bound(names, args))
    requires i < |names|
    requires run == Markers(1 + SumLens(names[..i], entries), entries[names[i]].len)
    ensures CoversAt(run, names, args, flat, i)
  {
    assert names[i] in names;
    ArgumentsOfPlaceholder(names, args, entries, run.first, i);
  }

  /** Run i of the rewritten text covers exactly the stretch of the
      positional arguments that the value bound to placeholder i expands to. */
  lemma RunsMatchArguments(names: seq<string>, args: map<string, Value>, entries: map<string, ParamEntry>,
                           runs: seq<Piece>, flat: seq<Value>)
    requires AllBound(names, entries)
    requires forall n :: n in names ==> entries[n].len == SlotCount(ArgOf(args, n))
    requires flat == Concat(Bound(names, args))
    requires RunsFollow(runs, names, entries, 1)
    ensures RunsCover(runs, names, args, flat)
  {
    forall i | 0 <= i < |names|
      ensures CoversAt(runs[i], names, args, flat, i)
    {
      RunCovers(names, args, entries, runs[i], flat, i);
    }
  }

  /** `run`, standing for placeholder i, covers exactly the stretch of the
      positional arguments `flat` that the value bound to `names[i]`
      expands to. */
  predicate CoversAt(run: Piece, names: seq<string>, args: map<string, Value>, flat: seq<Value>, i: nat) {
    && i < |names|
    && run.Markers?
    && run.count == |Expand(ArgOf(args, names[i]))|
    && 1 <= run.first && run.first - 1 + run.count <= |flat|
    && flat[run.first - 1 .. run.first - 1 + run.count] == Expand(ArgOf(args, names[i]))
  }

  /** Every run covers the arguments of its placeholder. */
  predicate RunsCover(runs: seq<Piece>, names: seq<string>, args: map<string, Value>, flat: seq<Value>) {
    && |runs| == |names|
    && forall i {:trigger runs[i]} :: 0 <= i < |runs| ==> CoversAt(runs[i], names, args, flat, i)
  }

  /** The markers of `plan`, numbered from 1, count through the positional
      arguments `flat` from left to right, and the run of markers standing
      for placeholder i covers exactly the stretch of `flat` that the value
      bound to that placeholder expands to. */
  predicate Aligned(plan: seq<Piece>, names: seq<string>, args: map<string, Value>, flat: seq<Value>) {
    && MarkerNumbers(plan) == Iota(1, |flat|)
    && RunsCover(Runs(plan), names, args, flat)
  }

  /** The walk over the tokens, numbered from 1, is aligned with the
      concatenated expansions of the placeholders' values. */
  lemma LayoutAlignment(toks: seq<string>, args: map<string, Value>, entries: map<string, ParamEntry>,
                        flat: seq<Value>)
    requires AllBound(Placeholders(toks), entries)
    requires forall n :: n in Placeholders(toks) ==> entries[n].len == SlotCount(ArgOf(args, n))
    requires flat == Concat(Bound(Placeholders(toks), args))
    ensures Layout(toks, entries, 1).Success?
    ensures Aligned(Layout(toks, entries, 1).value, Placeholders(toks), args, flat)
  {
    var names := Placeholders(toks);
    LayoutRuns(toks, entries, 1);
    var plan := Layout(toks, entries, 1).value;
    assert MarkerNumbers(plan) == Iota(1, |flat|) by {
      SlotsBeforeRun(names, args, entries);
      LayoutNumbers(toks, entries, 1);
    }
    RunsMatchArguments(names, args, entries, Runs(plan), flat);
  }

  /** The alignment theorem. When no placeholder name repeats, the named
      rewrite succeeds; the rewritten text is the rendering of the
      substitution plan, the positional arguments are the placeholders'
      values expanded and concatenated in placeholder order, and the plan's
      markers are aligned with them: the marker numbered k stands for the
      k-th positional argument. */
  lemma Alignment(q: string, args: map<string, Value>)
    requires NoDuplicates(Placeholders(Fields(q)))
    ensures Normalize(q, args).Success?
    ensures Rewrite(q, NamedParameters(q, args)).Success?
    ensures var names := Placeholders(Fields(q));
            var plan := Rewrite(q, NamedParameters(q, args)).value;
            var text := Normalize(q, args).value.0;
            var flat := Normalize(q, args).value.1;
            && text == Join(Render(plan), " ")
            && flat == Concat(Bound(names, args))
            && Aligned(plan, names, args, flat)
  {
    var toks := Fields(q);
    var names := Placeholders(toks);
    var entries := NamedParameters(q, args);
    EntriesInPlaceholderOrder(q, args);
    assert Substitute(q, entries).Success?;
    assert Rewrite(q, entries) == Layout(toks, entries, 1);
    var flat := Normalize(q, args).value.1;
    assert flat == Concat(Bound(names, args)) by {
      assert flat == FlattenArgs(entries);
      ExpandAllBound(names, args, entries);
    }
    LayoutAlignment(toks, args, entries, flat);
  }
}
