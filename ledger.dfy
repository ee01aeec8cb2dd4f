/**
  The categorisation rules of the transaction table (app.py:63-107): one
  pass over the rows in which each row takes the category chosen in its own
  selector and may hand it on to ticked rows of the same payee that have no
  category yet, followed by the categorised view, the per-category summary
  and the export subset.
*/
module Ledger {
  import opened Wrappers
  import opened Filters
  import opened Report

  /** The categories a row can be given (app.py:8-10). */
  const Categories: seq<string> :=
    ["Lebensmittel", "Miete", "Transport", "Freizeit", "Rechnungen", "Sonstiges"]

  /** What a row's selector offers: no category, or one of `Categories`. */
  predicate IsOption(c: string) {
    c == "" || c in Categories
  }

  /** What is done in the expander of one row: the category chosen in its
      selector, and the rows whose "similar" checkbox is ticked. */
  datatype Choice = Choice(selected: string, checked: set<nat>)

  // ---------------------------------------------------------------------------
  // Similar rows (app.py:78-82)

  /** Row `j` is offered to row `anchor` as similar: same payee, another row,
      and no category yet. */
  predicate IsSimilar(rows: seq<Transaction>, anchor: nat, j: nat)
    requires anchor < |rows|
  {
    j < |rows| && j != anchor && rows[j].payee == rows[anchor].payee && rows[j].category == ""
  }

  /** The rows below `n` that are similar to `anchor`, in table order. */
  function SimilarBelow(rows: seq<Transaction>, anchor: nat, n: nat): (sim: seq<nat>)
    requires anchor < |rows| && n <= |rows|
    ensures forall k :: 0 <= k < |sim| ==> sim[k] < n
  {
    if n == 0 then []
    else SimilarBelow(rows, anchor, n - 1) + (if IsSimilar(rows, anchor, n - 1) then [n - 1] else [])
  }

  /** The mask of app.py:78-82 applied to the whole table. */
  function Similar(rows: seq<Transaction>, anchor: nat): (sim: seq<nat>)
    requires anchor < |rows|
    ensures forall k :: 0 <= k < |sim| ==> sim[k] < |rows|
  {
    SimilarBelow(rows, anchor, |rows|)
  }

  lemma {:induction false} SimilarBelowIff(rows: seq<Transaction>, anchor: nat, n: nat)
    requires anchor < |rows| && n <= |rows|
    ensures forall j: nat :: j in SimilarBelow(rows, anchor, n) <==> j < n && IsSimilar(rows, anchor, j)
    ensures Increasing(SimilarBelow(rows, anchor, n))
  {
    if n > 0 {
      SimilarBelowIff(rows, anchor, n - 1);
    }
  }

  /** The similar rows are exactly the other rows of the same payee without a
      category, each once and in table order; the anchor is never among them. */
  lemma {:induction false} SimilarIff(rows: seq<Transaction>, anchor: nat)
    requires anchor < |rows|
    ensures forall j: nat :: j in Similar(rows, anchor) <==> IsSimilar(rows, anchor, j)
    ensures anchor !in Similar(rows, anchor)
    ensures Increasing(Similar(rows, anchor))
  {
    SimilarBelowIff(rows, anchor, |rows|);
  }

  // ---------------------------------------------------------------------------
  // Assigning categories (app.py:91, 93)

  /** `df.at[i, "Kategorie"] = c`. */
  function Assign(rows: seq<Transaction>, i: nat, c: string): seq<Transaction>
    requires i < |rows|
  {
    rows[i := rows[i].(category := c)]
  }

  /** Setting a category changes that row's category and nothing else. */
  lemma {:induction false} AssignLocal(rows: seq<Transaction>, i: nat, c: string)
    requires i < |rows|
    ensures |Assign(rows, i, c)| == |rows|
    ensures Assign(rows, i, c)[i].category == c
    ensures Assign(rows, i, c)[i].(category := rows[i].category) == rows[i]
    ensures forall j :: 0 <= j < |rows| && j != i ==> Assign(rows, i, c)[j] == rows[j]
  {
  }

  /** Setting the same category twice is setting it once. */
  lemma {:induction false} AssignIdempotent(rows: seq<Transaction>, i: nat, c: string)
    requires i < |rows|
    ensures Assign(Assign(rows, i, c), i, c) == Assign(rows, i, c)
  {
  }

  /** The ticked rows among `sim` take the chosen category, one after the
      other (app.py:85-91). */
  function Bulk(rows: seq<Transaction>, sim: seq<nat>, choice: Choice): (r: seq<Transaction>)
    requires forall k :: 0 <= k < |sim| ==> sim[k] < |rows|
    ensures |r| == |rows|
  {
    if sim == [] then rows
    else
      var r := Bulk(rows, sim[..|sim| - 1], choice);
      var j := sim[|sim| - 1];
      if j in choice.checked then Assign(r, j, choice.selected) else r
  }

  /** After the bulk assignment a row has the chosen category exactly when it
      is among `sim` and ticked; otherwise it is unchanged. */
  lemma {:induction false} BulkAt(rows: seq<Transaction>, sim: seq<nat>, choice: Choice, j: nat)
    requires forall k :: 0 <= k < |sim| ==> sim[k] < |rows|
    requires j < |rows|
    ensures Bulk(rows, sim, choice)[j]
      == if j in sim && j in choice.checked then rows[j].(category := choice.selected) else rows[j]
    decreases |sim|
  {
    if sim != [] {
      var init := sim[..|sim| - 1];
      BulkAt(rows, init, choice, j);
      assert sim == init + [sim[|sim| - 1]];
    }
  }

  /** The work done in the expander of row `idx`: with a category chosen, the
      ticked similar rows take it; then the row takes its own selection, even
      an empty one (app.py:77-93). */
  function Step(rows: seq<Transaction>, idx: nat, choice: Choice): (r: seq<Transaction>)
    requires idx < |rows|
    ensures |r| == |rows|
  {
    var bulk := if choice.selected != "" then Bulk(rows, Similar(rows, idx), choice) else rows;
    Assign(bulk, idx, choice.selected)
  }

  /** Row `j` after the expander of row `idx`: the row itself takes its own
      selection, a ticked similar row takes the chosen category, and every
      other row is unchanged. */
  lemma {:induction false} StepAt(rows: seq<Transaction>, idx: nat, choice: Choice, j: nat)
    requires idx < |rows| && j < |rows|
    ensures Step(rows, idx, choice)[j]
      == if j == idx then rows[j].(category := choice.selected)
         else if choice.selected != "" && IsSimilar(rows, idx, j) && j in choice.checked
         then rows[j].(category := choice.selected)
         else rows[j]
  {
    if choice.selected != "" {
      BulkAt(rows, Similar(rows, idx), choice, j);
      SimilarIff(rows, idx);
    }
  }

  /** An expander changes categories only. */
  lemma {:induction false} StepKeepsFields(rows: seq<Transaction>, idx: nat, choice: Choice, j: nat)
    requires idx < |rows| && j < |rows|
    ensures Step(rows, idx, choice)[j].(category := rows[j].category) == rows[j]
  {
    StepAt(rows, idx, choice, j);
  }

  /** An expander leaves every other row that already has a category alone. */
  lemma {:induction false} StepKeepsCategorized(rows: seq<Transaction>, idx: nat, choice: Choice, j: nat)
    requires idx < |rows| && j < |rows| && j != idx
    requires rows[j].category != ""
    ensures Step(rows, idx, choice)[j] == rows[j]
  {
    StepAt(rows, idx, choice, j);
  }

  /** An expander gives its own row the selected category. */
  /** A row other than the anchor changes only by being ticked among its similar rows. */
  lemma {:induction false} StepChanged(rows: seq<Transaction>, idx: nat, choice: Choice, j: nat)
    requires idx < |rows| && j < |rows| && j != idx
    requires Step(rows, idx, choice)[j].category != rows[j].category
    ensures choice.selected != "" && IsSimilar(rows, idx, j) && j in choice.checked
    ensures Step(rows, idx, choice)[j].category == choice.selected
  {
    StepAt(rows, idx, choice, j);
  }

  lemma {:induction false} StepOwn(rows: seq<Transaction>, idx: nat, choice: Choice)
    requires idx < |rows|
    ensures Step(rows, idx, choice)[idx].category == choice.selected
  {
    StepAt(rows, idx, choice, idx);
  }

  /** The rows after the expanders of rows `0` to `n - 1`, one after the
      other, each working on the table as the earlier ones left it. */
  function PassUpTo(rows: seq<Transaction>, choices: seq<Choice>, n: nat): (r: seq<Transaction>)
    requires |choices| == |rows| && n <= |rows|
    ensures |r| == |rows|
  {
    if n == 0 then rows else Step(PassUpTo(rows, choices, n - 1), n - 1, choices[n - 1])
  }

  /** The whole loop of app.py:63-93, one choice per row. */
  function Pass(rows: seq<Transaction>, choices: seq<Choice>): seq<Transaction>
    requires |choices| == |rows|
  {
    PassUpTo(rows, choices, |rows|)
  }

  /** `b` is `a` with at most the categories changed. */
  predicate SameButCategories(a: seq<Transaction>, b: seq<Transaction>) {
    |a| == |b| && forall j :: 0 <= j < |a| ==> b[j].(category := a[j].category) == a[j]
  }

  /** Categorising changes no date, amount, payee, purpose or kind, and no
      row is added, dropped or moved. */
  lemma {:induction false} PassKeepsFields(rows: seq<Transaction>, choices: seq<Choice>, n: nat)
    requires |choices| == |rows| && n <= |rows|
    ensures SameButCategories(rows, PassUpTo(rows, choices, n))
  {
    if n > 0 {
      PassKeepsFields(rows, choices, n - 1);
      var before := PassUpTo(rows, choices, n - 1);
      forall j | 0 <= j < |rows|
        ensures PassUpTo(rows, choices, n)[j].(category := rows[j].category) == rows[j]
      {
        StepKeepsFields(before, n - 1, choices[n - 1], j);
      }
    }
  }

  /** A row whose own selector names a category ends the pass with that
      category: once set, no later expander can touch it, since similar rows
      must have none. */
  lemma {:induction false} OwnChoiceKept(rows: seq<Transaction>, choices: seq<Choice>, j: nat, n: nat)
    requires |choices| == |rows| && j < n <= |rows|
    requires choices[j].selected != ""
    ensures PassUpTo(rows, choices, n)[j].category == choices[j].selected
  {
    var before := PassUpTo(rows, choices, n - 1);
    assert PassUpTo(rows, choices, n) == Step(before, n - 1, choices[n - 1]);
    if j < n - 1 {
      OwnChoiceKept(rows, choices, j, n - 1);
      assert before[j].category != "";
      StepKeepsCategorized(before, n - 1, choices[n - 1], j);
    } else {
      assert j == n - 1;
      StepOwn(before, n - 1, choices[n - 1]);
    }
  }

  /** Where a row's final category comes from: its own selector, or, when
      that is empty, a later row of the same payee that ticked it. A category
      handed to a later row by an earlier one is overwritten by that row's
      own selector. */
  lemma {:induction false} CategorySource(rows: seq<Transaction>, choices: seq<Choice>, j: nat, n: nat)
    requires |choices| == |rows| && j < n <= |rows|
    ensures var c := PassUpTo(rows, choices, n)[j].category;
      c == choices[j].selected
      || (choices[j].selected == "" && exists a :: j < a < n && HandedOn(rows, choices, a, j, c))
  {
    var before := PassUpTo(rows, choices, n - 1);
    var c := PassUpTo(rows, choices, n)[j].category;
    assert PassUpTo(rows, choices, n) == Step(before, n - 1, choices[n - 1]);
    if j == n - 1 {
      StepOwn(before, n - 1, choices[n - 1]);
    } else {
      CategorySource(rows, choices, j, n - 1);
      if c != before[j].category {
        StepChanged(before, n - 1, choices[n - 1], j);
        PassKeepsFields(rows, choices, n - 1);
        assert before[j].payee == rows[j].payee && before[n - 1].payee == rows[n - 1].payee;
        OwnChoiceEmpty(rows, choices, j, n - 1);
        assert HandedOn(rows, choices, n - 1, j, c);
      }
    }
  }


  /** Row `anchor`, of the same payee as row `j`, chose `c` and ticked `j`. */
  predicate HandedOn(rows: seq<Transaction>, choices: seq<Choice>, anchor: nat, j: nat, c: string)
    requires |choices| == |rows| && anchor < |rows| && j < |rows|
  {
    choices[anchor].selected == c && c != "" && j in choices[anchor].checked
      && rows[anchor].payee == rows[j].payee
  }

  /** A row without a category after its own expander chose none. */
  lemma {:induction false} OwnChoiceEmpty(rows: seq<Transaction>, choices: seq<Choice>, j: nat, n: nat)
    requires |choices| == |rows| && j < n <= |rows|
    requires PassUpTo(rows, choices, n)[j].category == ""
    ensures choices[j].selected == ""
  {
    if choices[j].selected != "" {
      OwnChoiceKept(rows, choices, j, n);
    }
  }

  /** Every category in the table is one the selectors offer, before and after
      the pass. */
  predicate OptionsOnly(rows: seq<Transaction>) {
    forall j :: 0 <= j < |rows| ==> IsOption(rows[j].category)
  }

  lemma {:induction false} PassKeepsOptions(rows: seq<Transaction>, choices: seq<Choice>, n: nat)
    requires |choices| == |rows| && n <= |rows|
    requires OptionsOnly(rows)
    requires forall k :: 0 <= k < |choices| ==> IsOption(choices[k].selected)
    ensures OptionsOnly(PassUpTo(rows, choices, n))
  {
    if n > 0 {
      PassKeepsOptions(rows, choices, n - 1);
      var before := PassUpTo(rows, choices, n - 1);
      assert PassUpTo(rows, choices, n) == Step(before, n - 1, choices[n - 1]);
      StepKeepsOptions(before, n - 1, choices[n - 1]);
    }
  }

  /** One expander's step keeps every category among the options. */
  lemma StepKeepsOptions(rows: seq<Transaction>, idx: nat, choice: Choice)
    requires idx < |rows| && OptionsOnly(rows) && IsOption(choice.selected)
    ensures OptionsOnly(Step(rows, idx, choice))
  {
    forall j | 0 <= j < |rows| ensures IsOption(Step(rows, idx, choice)[j].category) {
      StepAt(rows, idx, choice, j);
    }
  }

  /** A pass in which the second of two rows of the same payee keeps its
      selector empty: the category the first row hands it is lost. */
  lemma {:induction false} HandedForwardLost()
    ensures var t := Transaction("01.08.2024", -800.0, "Vermieter", "Miete", "Dauerauftrag", "");
      Pass([t, t], [Choice("Miete", {1}), Choice("", {})])
        == [t.(category := "Miete"), t]
  {
    var t := Transaction("01.08.2024", -800.0, "Vermieter", "Miete", "Dauerauftrag", "");
    var rows, choices := [t, t], [Choice("Miete", {1}), Choice("", {})];
    var m := t.(category := "Miete");
    assert Similar(rows, 0) == [1] by {
      assert SimilarBelow(rows, 0, 1) == [];
    }
    assert Bulk(rows, [1], choices[0]) == [t, m] by {
      assert [1][..0] == [];
    }
    assert PassUpTo(rows, choices, 1) == [m, m];
    assert Pass(rows, choices) == Assign([m, m], 1, "");
  }

  /** The table of the session (app.py:53-95): the rows whose categories the
      expanders update in place. */
  class Frame {
    var rows: seq<Transaction>

    constructor (records: seq<Transaction>)
      ensures rows == records
    {
      rows := records;
    }

    /** `df.at[i, "Kategorie"] = c` (app.py:91, 93). */
    method SetCategory(i: nat, c: string)
      requires i < |rows|
      modifies this
      ensures rows == Assign(old(rows), i, c)
    {
      rows := rows[i := rows[i].(category := c)];
    }

    /** The expander of row `idx` (app.py:69-93). */
    method CategorizeRow(idx: nat, choice: Choice)
      requires idx < |rows|
      modifies this
      ensures rows == Step(old(rows), idx, choice)
    {
      if choice.selected != "" {
        var similar := Similar(rows, idx);
        ghost var start := rows;
        var k := 0;
        while k < |similar|
          invariant 0 <= k <= |similar|
          invariant rows == Bulk(start, similar[..k], choice)
        {
          assert similar[..k + 1][..k] == similar[..k];
          if similar[k] in choice.checked {
            SetCategory(similar[k], choice.selected);
          }
          k := k + 1;
        }
        assert similar[..|similar|] == similar;
      }
      SetCategory(idx, choice.selected);
    }

    /** The loop over all rows (app.py:63-93); `choices[i]` is what was done in
        the expander of row `i`. */
    method CategorizeAll(choices: seq<Choice>)
      requires |choices| == |rows|
      modifies this
      ensures rows == Pass(old(rows), choices)
    {
      var n := |rows|;
      var idx := 0;
      while idx < n
        invariant 0 <= idx <= n
        invariant rows == PassUpTo(old(rows), choices, idx)
      {
        CategorizeRow(idx, choices[idx]);
        idx := idx + 1;
      }
    }
  }

  // ---------------------------------------------------------------------------
  // Views of the categorised table (app.py:99-107)

  predicate IsCategorized(r: Transaction) {
    r.category != ""
  }

  /** `df[df["Kategorie"] != ""]`. */
  function Categorized(rows: seq<Transaction>): seq<Transaction> {
    Filter(rows, IsCategorized)
  }

  /** The mask `["Kategorie"] == c`. */
  function InCategory(c: string): Transaction -> bool {
    (r: Transaction) => r.category == c
  }

  /** The categorised view keeps the rows with a category, in table order,
      each as often as it occurs, and only those. */
  lemma {:induction false} CategorizedRows(rows: seq<Transaction>)
    ensures |Categorized(rows)| == |Positions(rows, IsCategorized)|
    ensures forall k :: 0 <= k < |Categorized(rows)| ==>
      Categorized(rows)[k] == rows[Positions(rows, IsCategorized)[k]]
    ensures Increasing(Positions(rows, IsCategorized))
    ensures forall j :: 0 <= j < |rows| ==> (j in Positions(rows, IsCategorized) <==> rows[j].category != "")
    ensures forall r :: r in Categorized(rows) <==> r in rows && r.category != ""
  {
    FilterAt(rows, IsCategorized);
    forall r ensures r in Categorized(rows) <==> r in rows && r.category != "" {
      FilterMember(rows, IsCategorized, r);
    }
  }

  /** The view is empty, and the "no categorised transactions" notice shows,
      exactly when no row has a category. */
  lemma {:induction false} NothingCategorizedIff(rows: seq<Transaction>)
    ensures Categorized(rows) == [] <==> forall j :: 0 <= j < |rows| ==> rows[j].category == ""
  {
    FilterEmptyIff(rows, IsCategorized);
  }

  /** `df_kat[df_kat["Kategorie"] == selected]`. */
  function Export(rows: seq<Transaction>, selected: string): seq<Transaction> {
    Filter(Categorized(rows), InCategory(selected))
  }

  /** For a category offered by the export selector, the export is the
      order-preserving selection of the rows of that category from the whole
      table: every exported row has it, and every row that has it is exported
      as often as it occurs. */
  lemma {:induction false} ExportRows(rows: seq<Transaction>, selected: string)
    requires selected in Categories
    ensures Export(rows, selected) == Filter(rows, InCategory(selected))
    ensures forall k :: 0 <= k < |Export(rows, selected)| ==> Export(rows, selected)[k].category == selected
    ensures forall r :: multiset(Export(rows, selected))[r] == if r.category == selected then multiset(rows)[r] else 0
  {
    assert forall r :: InCategory(selected)(r) ==> IsCategorized(r);
    FilterNarrow(rows, IsCategorized, InCategory(selected));
    FilterAt(rows, InCategory(selected));
    forall r ensures multiset(Export(rows, selected))[r] == if r.category == selected then multiset(rows)[r] else 0 {
      FilterCount(rows, InCategory(selected), r);
    }
  }

  // ---------------------------------------------------------------------------
  // The summary (app.py:102)

  function SumAmounts(rows: seq<Transaction>): real {
    if rows == [] then 0.0 else SumAmounts(rows[..|rows| - 1]) + rows[|rows| - 1].amount
  }

  /** The sum of the amounts of the rows of category `c`. */
  function Total(rows: seq<Transaction>, c: string): real {
    SumAmounts(Filter(rows, InCategory(c)))
  }

  /** `groupby("Kategorie")["Betrag"].sum()`: one running sum per category
      that occurs. */
  function Group(rows: seq<Transaction>): map<string, real> {
    if rows == [] then map[]
    else
      var m := Group(rows[..|rows| - 1]);
      var r := rows[|rows| - 1];
      m[r.category := (if r.category in m then m[r.category] else 0.0) + r.amount]
  }

  /** The summary of the categorised view. */
  function Summary(rows: seq<Transaction>): map<string, real> {
    Group(Categorized(rows))
  }

  /** A category has a group exactly when some row has it. */
  lemma {:induction false} GroupKey(rows: seq<Transaction>, c: string)
    ensures c in Group(rows) <==> exists j :: 0 <= j < |rows| && rows[j].category == c
    decreases |rows|
  {
    if rows != [] {
      var init, r := rows[..|rows| - 1], rows[|rows| - 1];
      GroupKey(init, c);
      if c in Group(init) {
        var j :| 0 <= j < |init| && init[j].category == c;
        assert rows[j] == init[j];
      }
      if c != r.category && exists j :: 0 <= j < |rows| && rows[j].category == c {
        var j :| 0 <= j < |rows| && rows[j].category == c;
        assert j < |init| && init[j] == rows[j];
      }
    }
  }

  /** Each group holds the total of its category. */
  lemma {:induction false} GroupTotal(rows: seq<Transaction>, c: string)
    requires c in Group(rows)
    ensures Group(rows)[c] == Total(rows, c)
    decreases |rows|
  {
    assert rows != [];
    var init, r := rows[..|rows| - 1], rows[|rows| - 1];
    var f := Filter(init, InCategory(c));
    if c == r.category {
      assert Filter(rows, InCategory(c)) == f + [r];
      assert (f + [r])[..|f|] == f;
      assert Total(rows, c) == SumAmounts(f) + r.amount;
      if c in Group(init) {
        GroupTotal(init, c);
      } else {
        GroupKey(init, c);
        FilterEmptyIff(init, InCategory(c));
        assert f == [];
      }
    } else {
      assert Filter(rows, InCategory(c)) == f;
      GroupTotal(init, c);
    }
  }

  /** The summary has a row for category `c` exactly when `c` is not empty
      and some transaction has it. */
  lemma {:induction false} SummaryKey(rows: seq<Transaction>, c: string)
    ensures c in Summary(rows) <==> c != "" && exists j :: 0 <= j < |rows| && rows[j].category == c
  {
    var view := Categorized(rows);
    GroupKey(view, c);
    CategorizedRows(rows);
    if c in Summary(rows) {
      var j :| 0 <= j < |view| && view[j].category == c;
      assert view[j] in rows;
    }
    if c != "" && exists j :: 0 <= j < |rows| && rows[j].category == c {
      var j :| 0 <= j < |rows| && rows[j].category == c;
      assert rows[j] in view;
    }
  }

  /** The value the summary shows for a category is the total of that
      category's amounts over the whole table. */
  lemma {:induction false} SummaryTotal(rows: seq<Transaction>, c: string)
    requires c in Summary(rows)
    ensures Summary(rows)[c] == Total(rows, c)
  {
    SummaryKey(rows, c);
    GroupTotal(Categorized(rows), c);
    assert forall r :: InCategory(c)(r) ==> IsCategorized(r);
    FilterNarrow(rows, IsCategorized, InCategory(c));
  }

  // ---------------------------------------------------------------------------
  // A report without transactions (see README, Findings)

  /** Line 99 as written: for a table built from no records the frame has no
      "Kategorie" column and the selection raises `KeyError`, here `None`. */
  function CategorizedAsWritten(rows: seq<Transaction>): Option<seq<Transaction>> {
    if rows == [] then None else Some(Categorized(rows))
  }

  /** A report that parses to no records gives a table whose categorised view
      raises instead of showing the notice of line 118. */
  lemma {:induction false} EmptyReportRaises(raw: seq<string>)
    requires ParsePostbank(raw) == Parsed([])
    ensures CategorizedAsWritten(ParsePostbank(raw).records) == None
  {
  }

  /** The one-line report `Kontoumsaetze` is such a report. */
  lemma {:induction false} OneLineReportRaises()
    ensures ParsePostbank(["Kontoumsaetze"]) == Parsed([])
    ensures CategorizedAsWritten(ParsePostbank(["Kontoumsaetze"]).records) == None
  {
    ShortReportEmpty(["Kontoumsaetze"]);
  }

  /** With the view computed on rows, a report without transactions gives the
      empty view, so the notice of line 118 is shown. */
  lemma {:induction false} EmptyReportNotice(raw: seq<string>)
    requires ParsePostbank(raw) == Parsed([])
    ensures Categorized(ParsePostbank(raw).records) == []
  {
    NothingCategorizedIff([]);
  }
}
