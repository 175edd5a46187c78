/**
 * The status line `updateCaptureStats` writes: one `name: N samples` entry
 * per property of `trainingData`, in enumeration order, joined with " | ";
 * a placeholder when there is none; a suffix while predicting.
 */
module CaptureStats {
  import opened JsStrings
  import opened JsObject
  import H = Handlers

  const NoSamplesText: string := "No samples captured yet"
  const Separator: string := " | "
  const PredictingSuffix: string := " | \U{1F50D} Predicting..."

  /** The template literal `${name}: ${count} samples`. */
  function Entry(name: string, n: nat): string {
    name + ": " + DecimalString(n) + " samples"
  }

  /** An entry starts with the class name and ends with " samples". */
  lemma EntryShape(name: string, n: nat)
    ensures var e := Entry(name, n);
      |e| >= |name| + 11 && e[..|name|] == name && e[|e| - 8..] == " samples"
  {
  }

  /** The count can be read back from its entry. */
  lemma EntryShowsCount(name: string, n: nat)
    ensures var e := Entry(name, n);
      |name| + 2 <= |e| - 8 && e[|name|..|name| + 2] == ": " && ParseDecimal(e[|name| + 2..|e| - 8]) == n
  {
    var e := Entry(name, n);
    assert e[|name| + 2..|e| - 8] == DecimalString(n);
    DecimalRoundTrip(n);
  }

  /** The entries pushed for keys `ks`, in order. */
  function Entries(o: Obj, ks: seq<string>): (r: seq<string>)
    ensures |r| == |ks|
  {
    if ks == [] then []
    else Entries(o, ks[..|ks| - 1]) + [Entry(ks[|ks| - 1], Count(o, ks[|ks| - 1]))]
  }

  /** The i-th entry describes the i-th key with its count. */
  lemma {:induction false} EntriesAt(o: Obj, ks: seq<string>, i: nat)
    requires i < |ks|
    ensures Entries(o, ks)[i] == Entry(ks[i], Count(o, ks[i]))
  {
    if i < |ks| - 1 {
      EntriesAt(o, ks[..|ks| - 1], i);
    }
  }

  /** A list of strings that agrees with the entries for `ks` everywhere is those entries. */
  lemma EntriesFromPointwise(o: Obj, ks: seq<string>, stats: seq<string>)
    requires |stats| == |ks|
    requires forall i :: 0 <= i < |ks| ==> stats[i] == Entry(ks[i], Count(o, ks[i]))
    ensures stats == Entries(o, ks)
  {
    forall i | 0 <= i < |ks| ensures stats[i] == Entries(o, ks)[i] {
      EntriesAt(o, ks, i);
    }
  }

  /** The text `updateCaptureStats` shows for state `st`. */
  function StatusText(st: H.State): string {
    Finish(Join(Entries(st.trainingData, ForInOrder(st.trainingData.keys)), Separator), st.isPredicting)
  }

  /** `stats.join(' | ') || placeholder`, then the prediction suffix. */
  function Finish(joined: string, predicting: bool): string {
    var text := if joined == "" then NoSamplesText else joined;
    if predicting then text + PredictingSuffix else text
  }

  /** The placeholder is shown exactly when no class has a count and no prediction runs. */
  lemma StatusIsPlaceholderIff(st: H.State)
    ensures StatusText(st) == NoSamplesText <==> st.trainingData.keys == [] && !st.isPredicting
  {
    var order := ForInOrder(st.trainingData.keys);
    var es := Entries(st.trainingData, order);
    var joined := Join(es, Separator);
    var text := if joined == "" then NoSamplesText else joined;
    SameLength(order, st.trainingData.keys);
    if st.trainingData.keys == [] {
      assert es == [];
    } else {
      JoinEndsWithLast(es, Separator);
      var l := es[|es| - 1];
      EntriesAt(st.trainingData, order, |es| - 1);
      EntryShape(order[|es| - 1], Count(st.trainingData, order[|es| - 1]));
      assert l[|l| - 1] == 's';
      assert joined[|joined| - 1] == 's';
      assert text == joined;
    }
    if st.isPredicting {
      var t := text + PredictingSuffix;
      assert t[|t| - 1] == '.';
    }
  }

  /** Every class with a count appears in the status line with that count. */
  lemma StatusListsEveryClass(st: H.State, k: string)
    requires WellFormed(st.trainingData) && k in st.trainingData.vals
    ensures IsInfix(Entry(k, st.trainingData.vals[k]), StatusText(st))
  {
    var order := ForInOrder(st.trainingData.keys);
    var i := VisitedAt(st.trainingData.keys, k);
    var es := Entries(st.trainingData, order);
    var joined := Join(es, Separator);
    JoinContains(es, Separator, i);
    EntriesAt(st.trainingData, order, i);
    assert |joined| > 0 by {
      InfixNotLonger(es[i], joined);
    }
    InfixExtends(es[i], joined, if st.isPredicting then PredictingSuffix else "");
    assert StatusText(st) == joined + (if st.isPredicting then PredictingSuffix else "");
  }

  /** The position at which enumeration visits key `k`. */
  lemma VisitedAt(ks: seq<string>, k: string) returns (i: nat)
    requires NoDup(ks) && k in ks
    ensures i < |ForInOrder(ks)| && ForInOrder(ks)[i] == k
  {
    ForInOrderVisitsEachKeyOnce(ks);
    i :| 0 <= i < |ForInOrder(ks)| && ForInOrder(ks)[i] == k;
  }

  lemma InfixNotLonger(x: string, t: string)
    requires IsInfix(x, t)
    ensures |x| <= |t|
  {
  }

  lemma InfixExtends(x: string, t: string, suffix: string)
    requires IsInfix(x, t)
    ensures IsInfix(x, t + suffix)
  {
    var pre, post :| t == pre + x + post;
    assert t + suffix == pre + x + (post + suffix);
  }
}
