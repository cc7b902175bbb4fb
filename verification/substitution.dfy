/** Second pass of the named-parameter rewriter (substitute): every
    placeholder token becomes a run of positional markers "$n, $n+1, ...",
    numbered by one running counter that starts at 1. */
module Substitution {
  import opened Wrappers
  import opened Text
  import opened Params

  datatype SubstError =
    | NotFound(name: string)                      // a placeholder whose name is no key of the entries
    | CountMismatch(entries: nat, replaced: nat)  // placeholder occurrences differ from the number of entries

  /** One rewritten token: an unchanged word, or the markers $first ..
      $(first+count-1) that replace a placeholder. */
  datatype Piece = Word(text: string) | Markers(first: nat, count: nat)

  predicate AllBound(names: seq<string>, params: map<string, ParamEntry>) {
    forall n :: n in names ==> n in params
  }

  /** The first name, left to right, with no entry. */
  function FirstUnbound(names: seq<string>, params: map<string, ParamEntry>): string
    requires !AllBound(names, params)
  {
    if names[0] !in params then names[0] else FirstUnbound(names[1..], params)
  }

  /** Total slot count of the entries named, in order. */
  function SumLens(names: seq<string>, params: map<string, ParamEntry>): nat
    requires AllBound(names, params)
  {
    if |names| == 0 then 0 else params[names[0]].len + SumLens(names[1..], params)
  }

  /** The walk of substitute over the tokens with the counter at `next`;
      it stops at the first placeholder without an entry. */
  function Layout(toks: seq<string>, params: map<string, ParamEntry>, next: nat): Result<seq<Piece>, SubstError>
    decreases |toks|
  {
    if |toks| == 0 then Success([])
    else if IsPlaceholder(toks[0]) then
      var name := ParamName(toks[0]);
      if name in params then
        var len := params[name].len;
        match Layout(toks[1..], params, next + len)
        case Success(rest) => Success([Markers(next, len)] + rest)
        case Failure(e) => Failure(e)
      else
        Failure(NotFound(name))
    else
      match Layout(toks[1..], params, next)
      case Success(rest) => Success([Word(toks[0])] + rest)
      case Failure(e) => Failure(e)
  }

  /** The walk followed by the check that every entry was used once. */
  function Rewrite(sql: string, params: map<string, ParamEntry>): Result<seq<Piece>, SubstError> {
    var toks := Fields(sql);
    match Layout(toks, params, 1)
    case Failure(e) => Failure(e)
    case Success(plan) =>
      if |Placeholders(toks)| != |params| then Failure(CountMismatch(|params|, |Placeholders(toks)|))
      else Success(plan)
  }

  /** "$first", "$first+1", ... ("$%d" formatting). */
  function MarkerTexts(first: nat, count: nat): seq<string>
    decreases count
  {
    if count == 0 then [] else ["$" + Decimal(first)] + MarkerTexts(first + 1, count - 1)
  }

  function RenderPiece(p: Piece): string {
    match p
    case Word(t) => t
    case Markers(first, count) => Join(MarkerTexts(first, count), ", ")
  }

  function Render(plan: seq<Piece>): seq<string> {
    if |plan| == 0 then [] else [RenderPiece(plan[0])] + Render(plan[1..])
  }

  /** The marker pieces of a plan, in order. */
  function Runs(plan: seq<Piece>): (r: seq<Piece>)
    ensures forall i :: 0 <= i < |r| ==> r[i].Markers?
  {
    if |plan| == 0 then []
    else if plan[0].Markers? then [plan[0]] + Runs(plan[1..])
    else Runs(plan[1..])
  }

  /** The numbers a, a+1, ..., a+n-1. */
  function Iota(a: nat, n: nat): (r: seq<nat>)
    ensures |r| == n
    ensures forall i :: 0 <= i < n ==> r[i] == a + i
  {
    seq(n, i requires 0 <= i < n => a + i)
  }

  /** Every marker number of a plan, left to right. */
  function MarkerNumbers(plan: seq<Piece>): seq<nat> {
    if |plan| == 0 then []
    else if plan[0].Markers? then Iota(plan[0].first, plan[0].count) + MarkerNumbers(plan[1..])
    else MarkerNumbers(plan[1..])
  }

  lemma {:induction false} LayoutFails(toks: seq<string>, params: map<string, ParamEntry>, next: nat)
    requires !AllBound(Placeholders(toks), params)
    ensures Layout(toks, params, next) == Failure(NotFound(FirstUnbound(Placeholders(toks), params)))
    decreases |toks|
  {
    var names := Placeholders(toks);
    if IsPlaceholder(toks[0]) {
      assert names == [ParamName(toks[0])] + Placeholders(toks[1..]);
      if ParamName(toks[0]) in params {
        assert names[1..] == Placeholders(toks[1..]);
        LayoutFails(toks[1..], params, next + params[ParamName(toks[0])].len);
      }
    } else {
      LayoutFails(toks[1..], params, next);
    }
  }

  /** When every placeholder has an entry the walk succeeds, keeps every
      other token, and turns each placeholder into a marker run with its
      entry's slot count. */
  lemma {:induction false} LayoutTokens(toks: seq<string>, params: map<string, ParamEntry>, next: nat)
    requires AllBound(Placeholders(toks), params)
    ensures Layout(toks, params, next).Success?
    ensures var plan := Layout(toks, params, next).value;
            && |plan| == |toks|
            && (forall i :: 0 <= i < |toks| && !IsPlaceholder(toks[i]) ==> plan[i] == Word(toks[i]))
            && (forall i :: 0 <= i < |toks| && IsPlaceholder(toks[i]) ==>
                  ParamName(toks[i]) in params && plan[i].Markers? && plan[i].count == params[ParamName(toks[i])].len)
    decreases |toks|
  {
    if |toks| > 0 {
      var names := Placeholders(toks);
      if IsPlaceholder(toks[0]) {
        assert names == [ParamName(toks[0])] + Placeholders(toks[1..]);
        LayoutTokens(toks[1..], params, next + params[ParamName(toks[0])].len);
      } else {
        LayoutTokens(toks[1..], params, next);
      }
      var plan := Layout(toks, params, next).value;
      forall i | 0 < i < |toks|
        ensures plan[i] == Layout(toks[1..], params, if IsPlaceholder(toks[0]) then next + params[ParamName(toks[0])].len else next).value[i - 1]
      {
      }
    }
  }

  lemma SumLensShift(names: seq<string>, params: map<string, ParamEntry>, i: nat)
    requires AllBound(names, params)
    requires 0 < i <= |names|
    ensures SumLens(names[..i], params) == params[names[0]].len + SumLens(names[1..][..i - 1], params)
  {
    assert names[..i][1..] == names[1..][..i - 1];
  }

  /** Run i starts right after the slots of the runs before it, counting
      from `next`, and has the slot count of the i-th name's entry. */
  predicate RunsFollow(runs: seq<Piece>, names: seq<string>, params: map<string, ParamEntry>, next: nat)
    requires AllBound(names, params)
  {
    && |runs| == |names|
    && forall i {:trigger runs[i]} :: 0 <= i < |runs| ==>
         runs[i] == Markers(next + SumLens(names[..i], params), params[names[i]].len)
  }

  /** Prepending the run of the first placeholder to the runs of the
      others keeps every run where the slot counts before it put it. */
  lemma RunsCons(names: seq<string>, params: map<string, ParamEntry>, next: nat, tail: seq<Piece>)
    requires |names| > 0 && AllBound(names, params)
    requires AllBound(names[1..], params)
    requires RunsFollow(tail, names[1..], params, next + params[names[0]].len)
    ensures RunsFollow([Markers(next, params[names[0]].len)] + tail, names, params, next)
  {
    var runs := [Markers(next, params[names[0]].len)] + tail;
    forall i | 0 <= i < |runs|
      ensures runs[i] == Markers(next + SumLens(names[..i], params), params[names[i]].len)
    {
      if i == 0 {
        assert names[..0] == [];
      } else {
        assert runs[i] == tail[i - 1];
        SumLensShift(names, params, i);
      }
    }
  }

  /** The marker runs follow the placeholders in order: run i starts right
      after the slots of the runs before it and has its entry's slot count. */
  lemma {:induction false} LayoutRuns(toks: seq<string>, params: map<string, ParamEntry>, next: nat)
    requires AllBound(Placeholders(toks), params)
    ensures Layout(toks, params, next).Success?
    ensures RunsFollow(Runs(Layout(toks, params, next).value), Placeholders(toks), params, next)
    decreases |toks|
  {
    if |toks| > 0 {
      var names := Placeholders(toks);
      if IsPlaceholder(toks[0]) {
        var len := params[ParamName(toks[0])].len;
        assert names == [ParamName(toks[0])] + Placeholders(toks[1..]);
        assert names[1..] == Placeholders(toks[1..]);
        LayoutRuns(toks[1..], params, next + len);
        var rest := Layout(toks[1..], params, next + len).value;
        var plan := [Markers(next, len)] + rest;
        assert Layout(toks, params, next) == Success(plan);
        assert plan[1..] == rest;
        RunsCons(names, params, next, Runs(rest));
      } else {
        LayoutRuns(toks[1..], params, next);
        var rest := Layout(toks[1..], params, next).value;
        var plan := [Word(toks[0])] + rest;
        assert Layout(toks, params, next) == Success(plan);
        assert plan[1..] == rest;
      }
    }
  }

  lemma IotaSplit(a: nat, m: nat, n: nat)
    ensures Iota(a, m) + Iota(a + m, n) == Iota(a, m + n)
  {
  }

  /** The markers of a successful walk are exactly next, next+1, ...,
      next+S-1, left to right, where S sums the placeholders' slot counts. */
  lemma {:induction false} LayoutNumbers(toks: seq<string>, params: map<string, ParamEntry>, next: nat)
    requires AllBound(Placeholders(toks), params)
    ensures Layout(toks, params, next).Success?
    ensures MarkerNumbers(Layout(toks, params, next).value) == Iota(next, SumLens(Placeholders(toks), params))
    decreases |toks|
  {
    if |toks| > 0 {
      var names := Placeholders(toks);
      if IsPlaceholder(toks[0]) {
        var len := params[ParamName(toks[0])].len;
        assert names == [ParamName(toks[0])] + Placeholders(toks[1..]);
        assert names[1..] == Placeholders(toks[1..]);
        LayoutNumbers(toks[1..], params, next + len);
        var rest := Layout(toks[1..], params, next + len).value;
        var plan := [Markers(next, len)] + rest;
        assert Layout(toks, params, next) == Success(plan);
        assert plan[1..] == rest;
        IotaSplit(next, len, SumLens(Placeholders(toks[1..]), params));
      } else {
        LayoutNumbers(toks[1..], params, next);
        var rest := Layout(toks[1..], params, next).value;
        var plan := [Word(toks[0])] + rest;
        assert Layout(toks, params, next) == Success(plan);
        assert plan[1..] == rest;
      }
    }
  }

  /** The walk either succeeds or stops at the first unbound placeholder. */
  lemma LayoutOutcome(toks: seq<string>, params: map<string, ParamEntry>, next: nat)
    ensures AllBound(Placeholders(toks), params) ==> Layout(toks, params, next).Success?
    ensures !AllBound(Placeholders(toks), params) ==>
              Layout(toks, params, next) == Failure(NotFound(FirstUnbound(Placeholders(toks), params)))
  {
    if AllBound(Placeholders(toks), params) {
      LayoutTokens(toks, params, next);
    } else {
      LayoutFails(toks, params, next);
    }
  }

  /** substitute: the tokens joined by single spaces, each placeholder
      replaced by its marker run. It fails at the first placeholder without
      an entry, and otherwise when the number of placeholder occurrences is
      not the number of entries. */
  function Substitute(sql: string, params: map<string, ParamEntry>): (r: Result<string, SubstError>)
    ensures var names := Placeholders(Fields(sql));
            r.Success? <==> AllBound(names, params) && |names| == |params|
    ensures var names := Placeholders(Fields(sql));
            !AllBound(names, params) ==> r == Failure(NotFound(FirstUnbound(names, params)))
    ensures var names := Placeholders(Fields(sql));
            AllBound(names, params) && |names| != |params| ==> r == Failure(CountMismatch(|params|, |names|))
  {
    LayoutOutcome(Fields(sql), params, 1);
    match Rewrite(sql, params)
    case Failure(e) => Failure(e)
    case Success(plan) => Success(Join(Render(plan), " "))
  }

  lemma RenderShape(plan: seq<Piece>)
    ensures |Render(plan)| == |plan|
    ensures forall i :: 0 <= i < |plan| ==> Render(plan)[i] == RenderPiece(plan[i])
  {
    if |plan| > 0 {
      RenderShape(plan[1..]);
    }
  }

  /** A successful substitution is the rewritten tokens joined by single
      spaces (so newlines and runs of whitespace collapse): words are kept
      as they are and each placeholder token, trimmed characters included,
      is replaced by its whole run of markers. */
  lemma SubstituteText(sql: string, params: map<string, ParamEntry>)
    requires Substitute(sql, params).Success?
    ensures Rewrite(sql, params).Success?
    ensures var toks := Fields(sql);
            var plan := Rewrite(sql, params).value;
            var out := Render(plan);
            && Substitute(sql, params).value == Join(out, " ")
            && |plan| == |toks|
            && |out| == |toks|
            && (forall i :: 0 <= i < |toks| && !IsPlaceholder(toks[i]) ==> out[i] == toks[i])
            && (forall i :: 0 <= i < |toks| && IsPlaceholder(toks[i]) ==>
                  plan[i].Markers? && out[i] == Join(MarkerTexts(plan[i].first, plan[i].count), ", "))
  {
    LayoutTokens(Fields(sql), params, 1);
    RenderShape(Rewrite(sql, params).value);
  }

  /** The markers of a three-slot run starting at 1. */
  lemma MarkerTextsExample()
    ensures MarkerTexts(1, 3) == ["$1", "$2", "$3"]
  {
    assert Decimal(1) == "1" && Decimal(2) == "2" && Decimal(3) == "3";
    assert "$" + Decimal(1) == "$1" && "$" + Decimal(2) == "$2" && "$" + Decimal(3) == "$3";
    assert MarkerTexts(4, 0) == [];
    assert MarkerTexts(3, 1) == ["$3"];
    assert MarkerTexts(2, 2) == ["$2", "$3"];
  }

  /** A three-slot run starting at 1 renders as "$1, $2, $3". */
  lemma MarkerRunExample()
    ensures RenderPiece(Markers(1, 3)) == "$1, $2, $3"
  {
    MarkerTextsExample();
    assert Join(["$3"], ", ") == "$3";
    assert Join(["$2", "$3"], ", ") == "$2, $3";
  }
}
