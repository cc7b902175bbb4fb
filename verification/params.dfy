/** First pass of the named-parameter rewriter (namedParameters): one entry
    per distinct placeholder name, recording a position, the bound value
    and the number of positional slots it needs. */
module Params {
  import opened Text
  import opened Values

  /** strings.HasPrefix(word, ":"). */
  predicate IsPlaceholder(t: string) {
    |t| > 0 && t[0] == ':'
  }

  /** The TrimFunc predicate `!IsLetter(r) && !IsNumber(r) && (r == ':' ||
      r == '(' || r == ')')`. The three characters are neither letters nor
      numbers, so the first two conjuncts never decide anything. */
  predicate IsTrimmed(c: char) {
    c == ':' || c == '(' || c == ')'
  }

  predicate AllTrimmed(s: string) {
    forall i :: 0 <= i < |s| ==> IsTrimmed(s[i])
  }

  /** strings.TrimLeftFunc with IsTrimmed, from index k: the index of the
      first character at or after k that is not trimmed, or |t|. */
  function LeftCut(t: string, k: nat): (n: nat)
    requires k <= |t|
    ensures k <= n <= |t|
    ensures forall i :: k <= i < n ==> IsTrimmed(t[i])
    ensures n < |t| ==> !IsTrimmed(t[n])
    decreases |t| - k
  {
    if k < |t| && IsTrimmed(t[k]) then LeftCut(t, k + 1) else k
  }

  /** strings.TrimRightFunc with IsTrimmed on t[lo..k]: the end of that
      piece once its trailing trimmed characters are cut. */
  function RightCut(t: string, lo: nat, k: nat): (n: nat)
    requires lo <= k <= |t|
    ensures lo <= n <= k
    ensures forall i :: n <= i < k ==> IsTrimmed(t[i])
    ensures lo < n ==> !IsTrimmed(t[n - 1])
    decreases k
  {
    if lo < k && IsTrimmed(t[k - 1]) then RightCut(t, lo, k - 1) else k
  }

  /** The parameter name of a placeholder token: strings.TrimFunc, which
      cuts the leading and then the trailing ':', '(' and ')'. */
  function ParamName(t: string): string {
    var a := LeftCut(t, 0);
    t[a..RightCut(t, a, |t|)]
  }

  /** The name is a contiguous piece of the token with only trimmed
      characters cut away on either side; any other punctuation (a trailing
      ',' for one) stays in the name. */
  lemma ParamNameIsCore(t: string)
    ensures exists a, b :: 0 <= a <= b <= |t| && ParamName(t) == t[a..b] && AllTrimmed(t[..a]) && AllTrimmed(t[b..])
    ensures var name := ParamName(t); |name| > 0 ==> !IsTrimmed(name[0]) && !IsTrimmed(name[|name| - 1])
  {
    var a := LeftCut(t, 0);
    var b := RightCut(t, a, |t|);
    assert AllTrimmed(t[..a]) && AllTrimmed(t[b..]);
  }

  /** Conversely, cutting trimmed characters from both ends of a name that
      neither starts nor ends with one gives back exactly that name. */
  lemma ParamNameOfAffixed(pre: string, name: string, post: string)
    requires AllTrimmed(pre) && AllTrimmed(post)
    requires |name| > 0 && !IsTrimmed(name[0]) && !IsTrimmed(name[|name| - 1])
    ensures ParamName(pre + name + post) == name
  {
    var t := pre + name + post;
    var a := |pre|;
    var b := |pre| + |name|;
    assert forall i :: 0 <= i < a ==> t[i] == pre[i];
    assert forall i :: b <= i < |t| ==> t[i] == post[i - b];
    assert t[a] == name[0] && t[b - 1] == name[|name| - 1];
    var n := LeftCut(t, 0);
    assert n == a;
    var m := RightCut(t, a, |t|);
    assert m == b;
    assert t[a..b] == name;
  }

  /** A placeholder's name is the token without its colon. */
  lemma NameExamples()
    ensures ParamName(":ids") == "ids"
    ensures ParamName(":limit") == "limit"
  {
    ParamNameOfAffixed(":", "ids", "");
    assert ":" + "ids" + "" == ":ids";
    ParamNameOfAffixed(":", "limit", "");
    assert ":" + "limit" + "" == ":limit";
  }

  /** Of the trimmed characters only a trailing ')' can actually be cut: a
      token that starts with '(' is no placeholder at all, and a trailing
      comma stays part of the name. */
  lemma PunctuatedNameExamples()
    ensures ParamName(":ids)") == "ids"
    ensures ParamName(":id,") == "id,"
    ensures Placeholders(["(:ids)"]) == []
  {
    ParamNameOfAffixed(":", "ids", ")");
    assert ":" + "ids" + ")" == ":ids)";
    ParamNameOfAffixed(":", "id,", "");
    assert ":" + "id," + "" == ":id,";
    assert !IsPlaceholder("(:ids)");
    assert ["(:ids)"][1..] == [];
  }

  /** The names of the placeholder tokens, in token order. */
  function Placeholders(toks: seq<string>): (names: seq<string>)
    ensures |names| <= |toks|
  {
    if |toks| == 0 then []
    else if IsPlaceholder(toks[0]) then [ParamName(toks[0])] + Placeholders(toks[1..])
    else Placeholders(toks[1..])
  }

  /** One named parameter: the position counter when it was (last) seen, the
      bound value and its slot count. */
  datatype ParamEntry = ParamEntry(name: string, pos: nat, val: Value, len: nat)

  /** `args[name]`: a missing key reads as nil. */
  function ArgOf(args: map<string, Value>, name: string): Value {
    if name in args then args[name] else Nil
  }

  /** How far one occurrence moves the position counter: one, plus the slice
      length for a slice value. */
  function Advance(v: Value): nat {
    1 + (if IsSlice(v) then SlotCount(v) else 0)
  }

  function Advances(names: seq<string>, args: map<string, Value>): nat {
    if |names| == 0 then 0 else Advance(ArgOf(args, names[0])) + Advances(names[1..], args)
  }

  /** The entry recorded for occurrence `i` of `names` when the counter
      started at `p`. */
  function EntryAt(names: seq<string>, args: map<string, Value>, p: nat, i: nat): ParamEntry
    requires i < |names|
  {
    var v := ArgOf(args, names[i]);
    ParamEntry(names[i], p + Advances(names[..i], args) + 1, v, SlotCount(v))
  }

  /** Occurrence `i` is the last one of its name. */
  predicate IsLast(names: seq<string>, i: int) {
    0 <= i < |names| && names[i] !in names[i + 1..]
  }

  /** The walk of namedParameters over the placeholder names (the tokens
      that are not placeholders leave the state unchanged), from counter
      `position` with entries `acc` collected so far. */
  function Collect(names: seq<string>, args: map<string, Value>, position: nat, acc: map<string, ParamEntry>)
    : map<string, ParamEntry>
    decreases |names|
  {
    if |names| == 0 then acc
    else
      var v := ArgOf(args, names[0]);
      Collect(names[1..], args, position + Advance(v), acc[names[0] := ParamEntry(names[0], position + 1, v, SlotCount(v))])
  }

  lemma AdvancesSnoc(names: seq<string>, n: string, args: map<string, Value>)
    ensures Advances(names + [n], args) == Advances(names, args) + Advance(ArgOf(args, n))
  {
    if |names| > 0 {
      assert (names + [n])[1..] == names[1..] + [n];
    }
  }

  /** Dropping the first name shifts the occurrence index by one and starts
      the counter past the first occurrence. */
  lemma EntryAtShift(names: seq<string>, args: map<string, Value>, p: nat, i: nat)
    requires 0 < i < |names|
    ensures EntryAt(names, args, p, i) == EntryAt(names[1..], args, p + Advance(ArgOf(args, names[0])), i - 1)
  {
    assert names[..i][1..] == names[1..][..i - 1];
  }

  lemma {:induction false} CollectKeys(names: seq<string>, args: map<string, Value>, p: nat, acc: map<string, ParamEntry>)
    ensures forall n :: n in Collect(names, args, p, acc) <==> n in acc || n in names
    ensures forall n :: n in acc && n !in names ==> Collect(names, args, p, acc)[n] == acc[n]
    decreases |names|
  {
    if |names| > 0 {
      var v := ArgOf(args, names[0]);
      CollectKeys(names[1..], args, p + Advance(v), acc[names[0] := ParamEntry(names[0], p + 1, v, SlotCount(v))]);
      assert names == [names[0]] + names[1..];
    }
  }

  lemma {:induction false} CollectEntryAt(names: seq<string>, args: map<string, Value>, p: nat,
                                          acc: map<string, ParamEntry>, i: nat)
    requires IsLast(names, i)
    ensures names[i] in Collect(names, args, p, acc)
    ensures Collect(names, args, p, acc)[names[i]] == EntryAt(names, args, p, i)
    decreases |names|
  {
    var v := ArgOf(args, names[0]);
    var acc' := acc[names[0] := ParamEntry(names[0], p + 1, v, SlotCount(v))];
    if i == 0 {
      CollectKeys(names[1..], args, p + Advance(v), acc');
      assert names[..0] == [];
    } else {
      assert names[i + 1..] == names[1..][i..];
      CollectEntryAt(names[1..], args, p + Advance(v), acc', i - 1);
      EntryAtShift(names, args, p, i);
    }
  }

  /** namedParameters: one entry per distinct placeholder name, taken from
      its last occurrence; a name missing from `args` is bound to nil and
      raises no error. */
  function NamedParameters(s: string, args: map<string, Value>): (r: map<string, ParamEntry>)
    ensures forall n :: n in r <==> n in Placeholders(Fields(s))
    ensures forall i :: IsLast(Placeholders(Fields(s)), i) ==>
              r[Placeholders(Fields(s))[i]] == EntryAt(Placeholders(Fields(s)), args, 0, i)
  {
    var names := Placeholders(Fields(s));
    CollectKeys(names, args, 0, map[]);
    var r := Collect(names, args, 0, map[]);
    assert forall i :: IsLast(names, i) ==> r[names[i]] == EntryAt(names, args, 0, i) by {
      forall i | IsLast(names, i) {
        CollectEntryAt(names, args, 0, map[], i);
      }
    }
    r
  }

  /** Each occurrence moves the counter by one, plus the slice length when
      the bound value is a slice. */
  lemma PositionStep(names: seq<string>, args: map<string, Value>, p: nat, i: nat)
    requires i + 1 < |names|
    ensures EntryAt(names, args, p, i + 1).pos
            == EntryAt(names, args, p, i).pos + 1 + (if IsSlice(ArgOf(args, names[i])) then SlotCount(ArgOf(args, names[i])) else 0)
  {
    assert names[..i + 1] == names[..i] + [names[i]];
    AdvancesSnoc(names[..i], names[i], args);
  }

  /** The position counter strictly increases from one occurrence to the next. */
  lemma {:induction false} PositionsIncrease(names: seq<string>, args: map<string, Value>, p: nat, i: nat, j: nat)
    requires i < j < |names|
    ensures EntryAt(names, args, p, i).pos < EntryAt(names, args, p, j).pos
    decreases j - i
  {
    PositionStep(names, args, p, i);
    if i + 1 < j {
      PositionsIncrease(names, args, p, i + 1, j);
    }
  }

  /** Every name that occurs has a last occurrence. */
  lemma {:induction false} LastOccurrence(names: seq<string>, n: string)
    requires n in names
    ensures exists i :: IsLast(names, i) && names[i] == n
    decreases |names|
  {
    if n in names[1..] {
      LastOccurrence(names[1..], n);
      var j :| IsLast(names[1..], j) && names[1..][j] == n;
      assert names[j + 2..] == names[1..][j + 1..];
      assert IsLast(names, j + 1);
    } else {
      assert names[0] == n;
      assert IsLast(names, 0);
    }
  }

  /** No two entries share a position. */
  predicate DistinctPositions(entries: map<string, ParamEntry>) {
    forall a, b :: a in entries && b in entries && a != b ==> entries[a].pos != entries[b].pos
  }

  /** namedParameters never gives two names the same position, so ordering
      its entries by position is unambiguous. */
  lemma NamedParametersDistinct(s: string, args: map<string, Value>)
    ensures DistinctPositions(NamedParameters(s, args))
  {
    var names := Placeholders(Fields(s));
    var r := NamedParameters(s, args);
    forall a, b | a in r && b in r && a != b
      ensures r[a].pos != r[b].pos
    {
      LastOccurrence(names, a);
      LastOccurrence(names, b);
      var i :| IsLast(names, i) && names[i] == a;
      var j :| IsLast(names, j) && names[j] == b;
      if i < j {
        PositionsIncrease(names, args, 0, i, j);
      } else {
        PositionsIncrease(names, args, 0, j, i);
      }
    }
  }
}
