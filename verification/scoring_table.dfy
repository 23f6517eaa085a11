/** The scoring-rule table of the tournament form: a list of
    (position, points) rules the organiser edits, kept ordered by position
    with a stable sort after every insertion and edit. */
module ScoringTable {
  import opened Optional
  import opened AsciiText
  import opened Sequences

  /** A rule position as the JavaScript number holds it: an integer, or the
      -Infinity that `Math.max()` of no arguments yields and `+ 1` keeps. */
  datatype Position = MinusInfinity | At(n: int)

  /** `a - b < 0` in the sort's comparator. Two -Infinity positions differ by NaN,
      which the sort treats as 0, so they compare equal. */
  predicate Lt(a: Position, b: Position) {
    b.At? && (a.MinusInfinity? || a.n < b.n)
  }

  /** `a - b <= 0` in the sort's comparator. */
  predicate Le(a: Position, b: Position) {
    !Lt(b, a)
  }

  datatype ScoringRule = ScoringRule(id: string, position: Position, points: int, description: string)

  /** The "new rule" inputs under the table. */
  datatype RuleDraft = RuleDraft(position: Position, points: int, description: string)

  /** The part of the form state the rule editor reads and writes. */
  datatype RuleEditor = RuleEditor(rules: seq<ScoringRule>, draft: RuleDraft)

  /** The two fields the table's inputs edit in place. Both inputs pass
      `parseInt(...) || 1` for a position, so an edited position is finite. */
  datatype RuleEdit = SetPosition(position: int) | SetPoints(points: int)

  const DefaultRules: seq<ScoringRule> := [
    ScoringRule("1", At(1), 15, "Vitória Royale"),
    ScoringRule("2", At(2), 12, "2º Lugar"),
    ScoringRule("3", At(3), 10, "3º Lugar"),
    ScoringRule("4", At(4), 8, "4º Lugar"),
    ScoringRule("5", At(5), 6, "5º Lugar")
  ]

  const DefaultDraft: RuleDraft := RuleDraft(At(6), 4, "")

  predicate Sorted(rs: seq<ScoringRule>) {
    forall i, j :: 0 <= i < j < |rs| ==> Le(rs[i].position, rs[j].position)
  }

  /** The rules at position `p`, in list order. */
  function AtPosition(rs: seq<ScoringRule>, p: Position): seq<ScoringRule> {
    Filter(rs, PositionIs(p))
  }

  function PositionIs(p: Position): ScoringRule -> bool {
    (r: ScoringRule) => r.position == p
  }

  /** Inserts `x` after every rule whose position is at most its own. */
  function Insert(rs: seq<ScoringRule>, x: ScoringRule): (r: seq<ScoringRule>)
    ensures |r| == |rs| + 1
    ensures multiset(r) == multiset(rs) + multiset{x}
    ensures Sorted(rs) ==> Sorted(r)
  {
    if rs == [] || Lt(x.position, rs[0].position) then [x] + rs
    else
      var rest := Insert(rs[1..], x);
      assert rs == [rs[0]] + rs[1..];
      assert Sorted(rs) ==> Sorted([rs[0]] + rest) by {
        if Sorted(rs) {
          InsertSortedStep(rs, x, rest);
        }
      }
      [rs[0]] + rest
  }

  lemma InsertSortedStep(rs: seq<ScoringRule>, x: ScoringRule, rest: seq<ScoringRule>)
    requires Sorted(rs) && rs != [] && Le(rs[0].position, x.position)
    requires multiset(rest) == multiset(rs[1..]) + multiset{x}
    requires Sorted(rest)
    ensures Sorted([rs[0]] + rest)
  {
    forall j | 0 <= j < |rest| ensures Le(rs[0].position, rest[j].position) {
      assert rest[j] in multiset(rest);
      if rest[j] != x {
        assert rest[j] in rs[1..];
      }
    }
  }

  /** `rs.sort((a, b) => a.position - b.position)`: a stable sort by position
      (`Array.prototype.sort` is stable). */
  function SortByPosition(rs: seq<ScoringRule>): (r: seq<ScoringRule>)
    ensures |r| == |rs|
    ensures Sorted(r)
    ensures multiset(r) == multiset(rs)
  {
    if rs == [] then []
    else
      assert rs == rs[..|rs| - 1] + [rs[|rs| - 1]];
      Insert(SortByPosition(rs[..|rs| - 1]), rs[|rs| - 1])
  }

  /** Inserting into a sorted list appends `x` to the rules already at its position. */
  lemma {:induction false} InsertAtPosition(rs: seq<ScoringRule>, x: ScoringRule, p: Position)
    requires Sorted(rs)
    ensures AtPosition(Insert(rs, x), p) == AtPosition(rs, p) + (if x.position == p then [x] else [])
  {
    if rs == [] || Lt(x.position, rs[0].position) {
      InsertFront(rs, x, p);
    } else {
      var tail := rs[1..];
      SortedTail(rs);
      InsertStep(rs, x);
      InsertAtPosition(tail, x, p);
      PrependKeepsAdded(rs[0], tail, Insert(tail, x), x, p);
      assert [rs[0]] + tail == rs;
    }
  }

  lemma PrependKeepsAdded(y: ScoringRule, tail: seq<ScoringRule>, rest: seq<ScoringRule>, x: ScoringRule, p: Position)
    requires AtPosition(rest, p) == AtPosition(tail, p) + (if x.position == p then [x] else [])
    ensures AtPosition([y] + rest, p) == AtPosition([y] + tail, p) + (if x.position == p then [x] else [])
  {
    PrependAtPosition(y, rest, p);
    PrependAtPosition(y, tail, p);
  }

  lemma SortedTail(rs: seq<ScoringRule>)
    requires Sorted(rs) && rs != []
    ensures Sorted(rs[1..])
  {
    var tail := rs[1..];
    forall i, j | 0 <= i < j < |tail| ensures Le(tail[i].position, tail[j].position) {
      assert tail[i] == rs[i + 1] && tail[j] == rs[j + 1];
    }
  }

  lemma InsertStep(rs: seq<ScoringRule>, x: ScoringRule)
    requires rs != [] && Le(rs[0].position, x.position)
    ensures Insert(rs, x) == [rs[0]] + Insert(rs[1..], x)
  {
  }

  lemma PrependAtPosition(y: ScoringRule, rs: seq<ScoringRule>, p: Position)
    ensures AtPosition([y] + rs, p) == (if y.position == p then [y] else []) + AtPosition(rs, p)
  {
    assert ([y] + rs)[1..] == rs;
  }

  lemma InsertFront(rs: seq<ScoringRule>, x: ScoringRule, p: Position)
    requires Sorted(rs)
    requires rs == [] || Lt(x.position, rs[0].position)
    ensures AtPosition(Insert(rs, x), p) == AtPosition(rs, p) + (if x.position == p then [x] else [])
  {
    assert Insert(rs, x) == [x] + rs;
    PrependAtPosition(x, rs, p);
    if x.position == p {
      var keep := PositionIs(p);
      assert forall i :: 0 <= i < |rs| ==> !keep(rs[i]) by {
        forall i | 0 <= i < |rs| ensures !keep(rs[i]) {
          assert Le(rs[0].position, rs[i].position);
        }
      }
      FilterKeepsNone(rs, keep);
    }
  }

  /** The sort is stable: the rules at any one position keep their relative order. */
  lemma {:induction false} SortIsStable(rs: seq<ScoringRule>, p: Position)
    ensures AtPosition(SortByPosition(rs), p) == AtPosition(rs, p)
  {
    if rs != [] {
      var init, last := rs[..|rs| - 1], rs[|rs| - 1];
      SortByPositionStep(rs, init, last);
      SortIsStable(init, p);
      InsertAtPosition(SortByPosition(init), last, p);
      FilterConcat(init, [last], PositionIs(p));
      FilterSingleton(last, PositionIs(p));
    }
  }

  lemma SortByPositionStep(rs: seq<ScoringRule>, init: seq<ScoringRule>, last: ScoringRule)
    requires rs != [] && init == rs[..|rs| - 1] && last == rs[|rs| - 1]
    ensures rs == init + [last]
    ensures SortByPosition(rs) == Insert(SortByPosition(init), last)
  {
  }

  lemma {:induction false} InsertLast(rs: seq<ScoringRule>, x: ScoringRule)
    requires forall i :: 0 <= i < |rs| ==> Le(rs[i].position, x.position)
    ensures Insert(rs, x) == rs + [x]
  {
    if rs != [] {
      InsertLast(rs[1..], x);
      assert rs == [rs[0]] + rs[1..];
    }
  }

  /** Sorting a sorted list changes nothing. */
  lemma {:induction false} SortedUnchanged(rs: seq<ScoringRule>)
    requires Sorted(rs)
    ensures SortByPosition(rs) == rs
  {
    if rs != [] {
      var init, last := rs[..|rs| - 1], rs[|rs| - 1];
      SortedSplit(rs, init, last);
      SortedUnchanged(init);
      InsertLast(init, last);
    }
  }

  /** A sorted list is its sorted front followed by a last rule no smaller than any. */
  lemma SortedSplit(rs: seq<ScoringRule>, init: seq<ScoringRule>, last: ScoringRule)
    requires Sorted(rs) && rs != [] && init == rs[..|rs| - 1] && last == rs[|rs| - 1]
    ensures rs == init + [last]
    ensures Sorted(init)
    ensures forall i :: 0 <= i < |init| ==> Le(init[i].position, last.position)
  {
  }

  /** The larger of two positions, as `Math.max` picks it. */
  function Max(a: Position, b: Position): Position {
    if Lt(a, b) then b else a
  }

  /** `Math.max(...rules.map(r => r.position))`: -Infinity for no rules, otherwise a
      position some rule holds and no rule exceeds. */
  function MaxPosition(rs: seq<ScoringRule>): (m: Position)
    ensures rs == [] ==> m == MinusInfinity
    ensures forall x :: x in rs ==> Le(x.position, m)
    ensures rs != [] ==> exists x :: x in rs && x.position == m
  {
    if rs == [] then MinusInfinity
    else
      assert rs == [rs[0]] + rs[1..];
      Max(rs[0].position, MaxPosition(rs[1..]))
  }

  /** `position + 1` on a JavaScript number: -Infinity stays -Infinity. */
  function Succ(p: Position): (r: Position)
    ensures r.MinusInfinity? <==> p.MinusInfinity?
    ensures Lt(p, r) <==> p.At?
  {
    match p
    case MinusInfinity => MinusInfinity
    case At(n) => At(n + 1)
  }

  /** The position the form suggests for the next rule, as the source computes it:
      the largest position of the list as it was BEFORE the add, plus one. It is
      -Infinity exactly when no rule has a finite position. */
  function SuggestedPositionAsWritten(before: seq<ScoringRule>): (r: Position)
    ensures r.MinusInfinity? <==> forall x :: x in before ==> x.position.MinusInfinity?
    ensures forall x :: x in before && x.position.At? ==> Lt(x.position, r)
    ensures before != [] ==> exists x :: x in before && r == Succ(x.position)
  {
    Succ(MaxPosition(before))
  }

  /** The suggestion the form evidently intends: one past the largest position of
      the list AFTER the add, so it never repeats a position already taken. */
  function SuggestedPosition(after: seq<ScoringRule>): (r: Position)
    requires exists x :: x in after && x.position.At?
    ensures r.At?
    ensures forall x :: x in after ==> Lt(x.position, r)
    ensures exists x :: x in after && r == Succ(x.position)
  {
    Succ(MaxPosition(after))
  }

  function NewRule(d: RuleDraft, id: string): ScoringRule {
    ScoringRule(id, d.position, d.points, d.description)
  }

  /** `parseInt(value) || 1`, the value the two position inputs store, with `parsed`
      standing for what `parseInt` returns (`None` for NaN). */
  function PositionInput(parsed: Option<int>): (p: Position)
    ensures p.At?
    ensures parsed.Some? && parsed.value != 0 ==> p == At(parsed.value)
    ensures parsed.None? || parsed.value == 0 ==> p == At(1)
  {
    match parsed
    case Some(v) => if v != 0 then At(v) else At(1)
    case None => At(1)
  }

  /** `addScoringRule`: ignored when the draft's description is blank; otherwise the
      draft joins the table (its description stored untrimmed, `id` standing for
      `Date.now()`), the table is re-sorted by position and the draft is reset with
      points 2, an empty description and the suggestion taken from the table as it
      was before the add: one past the largest earlier position, -Infinity when the
      table was empty. */
  function AddScoringRule(ed: RuleEditor, id: string): (r: RuleEditor)
    ensures IsBlank(ed.draft.description) ==> r == ed
    ensures !IsBlank(ed.draft.description) ==>
      && |r.rules| == |ed.rules| + 1
      && Sorted(r.rules)
      && multiset(r.rules) == multiset(ed.rules) + multiset{NewRule(ed.draft, id)}
      && r.draft.points == 2
      && r.draft.description == ""
      && (ed.rules == [] ==> r.draft.position == MinusInfinity)
      && (ed.rules != [] ==> exists x :: x in ed.rules && r.draft.position == Succ(x.position))
      && (forall x :: x in ed.rules && x.position.At? ==> Lt(x.position, r.draft.position))
  {
    if Trim(ed.draft.description) == "" then ed
    else
      var rules := SortByPosition(ed.rules + [NewRule(ed.draft, id)]);
      RuleEditor(rules, RuleDraft(SuggestedPositionAsWritten(ed.rules), 2, ""))
  }

  /** `addScoringRule` as evidently intended: the suggestion comes from the table
      after the add, so it lies above every rule, the new one included. The
      corrected form never holds -Infinity (the default draft is 6, the input
      stores `parseInt(...) || 1` and this suggestion is finite), so the draft is
      taken to be finite, and it stays so. */
  function AddScoringRuleCorrected(ed: RuleEditor, id: string): (r: RuleEditor)
    requires ed.draft.position.At?
    ensures IsBlank(ed.draft.description) ==> r == ed
    ensures r.draft.position.At?
    ensures !IsBlank(ed.draft.description) ==>
      && |r.rules| == |ed.rules| + 1
      && Sorted(r.rules)
      && multiset(r.rules) == multiset(ed.rules) + multiset{NewRule(ed.draft, id)}
      && r.draft.points == 2
      && r.draft.description == ""
      && (forall x :: x in r.rules ==> Lt(x.position, r.draft.position))
  {
    if Trim(ed.draft.description) == "" then ed
    else
      var rules := SortByPosition(ed.rules + [NewRule(ed.draft, id)]);
      assert NewRule(ed.draft, id) in multiset(rules);
      RuleEditor(rules, RuleDraft(SuggestedPosition(rules), 2, ""))
  }

  /** No uniqueness check: a rule at an already used position is accepted and lands
      after the rules already there, which keep their order. */
  lemma AddGoesAfterEqualPositions(ed: RuleEditor, id: string)
    requires !IsBlank(ed.draft.description)
    ensures AtPosition(AddScoringRule(ed, id).rules, ed.draft.position)
         == AtPosition(ed.rules, ed.draft.position) + [NewRule(ed.draft, id)]
  {
    var x := NewRule(ed.draft, id);
    var p := ed.draft.position;
    var rules := AddScoringRule(ed, id).rules;
    assert rules == SortByPosition(ed.rules + [x]);
    SortIsStable(ed.rules + [x], p);
    FilterConcat(ed.rules, [x], PositionIs(p));
    FilterSingleton(x, PositionIs(p));
  }

  /** The source computes the next suggestion from the table as it was before the
      add. When the draft holds that very suggestion — as the initial form does —
      the suggestion after the add is a position the table now holds. */
  lemma StaleSuggestionRepeatsPosition(ed: RuleEditor, id: string)
    requires !IsBlank(ed.draft.description)
    requires ed.draft.position == SuggestedPositionAsWritten(ed.rules)
    ensures var r := AddScoringRule(ed, id);
            exists x :: x in r.rules && x.position == r.draft.position
  {
    assert NewRule(ed.draft, id) in multiset(AddScoringRule(ed, id).rules);
  }

  /** The initial form is in that situation: five rules and a draft at position 6,
      which is also what the source suggests after adding it. */
  lemma InitialDraftHoldsStaleSuggestion()
    ensures SuggestedPositionAsWritten(DefaultRules) == DefaultDraft.position
  {
    DefaultMaxPosition();
  }

  /** Adding the initial draft: the source suggests 6 again, the corrected form 7. */
  lemma InitialFormSuggestions(description: string, id: string)
    requires !IsBlank(description)
    ensures AddScoringRule(RuleEditor(DefaultRules, DefaultDraft.(description := description)), id).draft.position == At(6)
    ensures AddScoringRuleCorrected(RuleEditor(DefaultRules, DefaultDraft.(description := description)), id).draft.position == At(7)
  {
    var ed := RuleEditor(DefaultRules, DefaultDraft.(description := description));
    InitialDraftHoldsStaleSuggestion();
    var x := NewRule(ed.draft, id);
    var rules := SortByPosition(ed.rules + [x]);
    assert AddScoringRuleCorrected(ed, id).draft.position == SuggestedPosition(rules);
    AddedRulePositions(rules, x);
    SuggestionAboveBound(rules, x, 6);
  }

  /** Adding a rule at 6 to the default table leaves positions 1 to 6 only. */
  lemma AddedRulePositions(rules: seq<ScoringRule>, x: ScoringRule)
    requires x.position == At(6)
    requires multiset(rules) == multiset(DefaultRules) + multiset{x}
    ensures x in rules
    ensures forall y :: y in rules ==> y.position.At? && y.position.n <= 6
  {
    assert x in multiset(rules);
    forall y | y in rules ensures y.position.At? && y.position.n <= 6 {
      assert y in multiset(rules);
      if y != x {
        assert y in DefaultRules;
        DefaultPositions();
      }
    }
  }

  /** With `k` the largest position held, the corrected suggestion is `k + 1`. */
  lemma SuggestionAboveBound(after: seq<ScoringRule>, x: ScoringRule, k: int)
    requires x in after && x.position == At(k)
    requires forall y :: y in after ==> y.position.At? && y.position.n <= k
    ensures SuggestedPosition(after) == At(k + 1)
  {
    var r := SuggestedPosition(after);
    assert Lt(x.position, r);
    var z :| z in after && r == Succ(z.position);
  }

  lemma DefaultPositions()
    ensures forall y :: y in DefaultRules ==> y.position.At? && 1 <= y.position.n <= 5
  {
  }

  lemma DefaultMaxPosition()
    ensures MaxPosition(DefaultRules) == At(5)
  {
    var d := DefaultRules;
    assert d[4..][1..] == [];
    assert MaxPosition(d[4..]) == At(5);
    assert d[3..][1..] == d[4..];
    assert MaxPosition(d[3..]) == At(5);
    assert d[2..][1..] == d[3..];
    assert MaxPosition(d[2..]) == At(5);
    assert d[1..][1..] == d[2..];
    assert MaxPosition(d[1..]) == At(5);
    assert d[0..] == d;
  }

  /** Once every rule has been removed, adding one leaves -Infinity in the draft;
      a rule added from it without retyping the position sorts before every
      finite one. */
  lemma EmptyTableSuggestsMinusInfinity(d: RuleDraft, id: string)
    requires !IsBlank(d.description)
    ensures AddScoringRule(RuleEditor([], d), id).draft.position == MinusInfinity
  {
  }

  /** `removeScoringRule`: drops exactly the rules with that id, keeping the order of the rest. */
  function RemoveScoringRule(rules: seq<ScoringRule>, id: string): (r: seq<ScoringRule>)
    ensures forall x: ScoringRule :: multiset(r)[x] == if x.id == id then 0 else multiset(rules)[x]
    ensures IsSubsequence(r, rules)
    ensures Sorted(rules) ==> Sorted(r)
  {
    var keep := (x: ScoringRule) => x.id != id;
    var r := Filter(rules, keep);
    FilterCounts(rules, keep);
    FilterIsSubsequence(rules, keep);
    assert Sorted(rules) ==> Sorted(r) by {
      if Sorted(rules) {
        SubsequenceSorted(r, rules);
      }
    }
    r
  }

  lemma {:induction false} SubsequenceSorted(a: seq<ScoringRule>, b: seq<ScoringRule>)
    requires IsSubsequence(a, b) && Sorted(b)
    ensures Sorted(a)
    decreases |b|
  {
    if a != [] && b != [] {
      assert Sorted(b[1..]);
      if a[0] == b[0] && IsSubsequence(a[1..], b[1..]) {
        SubsequenceSorted(a[1..], b[1..]);
        SubsequenceMembers(a[1..], b[1..]);
        forall j | 0 < j < |a| ensures Le(a[0].position, a[j].position) {
          assert a[j] in a[1..];
        }
      } else {
        SubsequenceSorted(a, b[1..]);
      }
    }
  }

  function Apply(rule: ScoringRule, edit: RuleEdit): (r: ScoringRule)
    ensures r.id == rule.id && r.description == rule.description
  {
    match edit
    case SetPosition(p) => rule.(position := At(p))
    case SetPoints(p) => rule.(points := p)
  }

  function EditOne(rule: ScoringRule, id: string, edit: RuleEdit): ScoringRule {
    if rule.id == id then Apply(rule, edit) else rule
  }

  /** `rules.map(rule => rule.id === id ? { ...rule, [field]: value } : rule)`. */
  function EditMatching(rules: seq<ScoringRule>, id: string, edit: RuleEdit): (r: seq<ScoringRule>)
    ensures |r| == |rules|
    ensures forall i :: 0 <= i < |r| ==> r[i] == EditOne(rules[i], id, edit)
  {
    if rules == [] then [] else [EditOne(rules[0], id, edit)] + EditMatching(rules[1..], id, edit)
  }

  /** The edit leaves a rule with another id exactly as often as it was. */
  lemma {:induction false} EditMatchingCounts(rules: seq<ScoringRule>, id: string, edit: RuleEdit, x: ScoringRule)
    requires x.id != id
    ensures multiset(EditMatching(rules, id, edit))[x] == multiset(rules)[x]
  {
    if rules != [] {
      var head := EditOne(rules[0], id, edit);
      var rest := EditMatching(rules[1..], id, edit);
      EditMatchingCounts(rules[1..], id, edit, x);
      assert multiset([head])[x] == multiset([rules[0]])[x] by {
        if rules[0].id != id {
          assert head == rules[0];
        }
      }
      calc {
        multiset(EditMatching(rules, id, edit))[x];
        multiset([head] + rest)[x];
        multiset([head])[x] + multiset(rest)[x];
        multiset([rules[0]])[x] + multiset(rules[1..])[x];
        multiset([rules[0]] + rules[1..])[x];
        { assert [rules[0]] + rules[1..] == rules; }
        multiset(rules)[x];
      }
    }
  }

  /** `updateScoringRule`: edits the field of the rules with that id and re-sorts by position. */
  function UpdateScoringRule(rules: seq<ScoringRule>, id: string, edit: RuleEdit): (r: seq<ScoringRule>)
    ensures |r| == |rules|
    ensures Sorted(r)
    ensures forall x: ScoringRule :: x.id != id ==> multiset(r)[x] == multiset(rules)[x]
    ensures forall x :: x in r && x.id == id ==> exists y :: y in rules && y.id == id && x == Apply(y, edit)
  {
    var edited := EditMatching(rules, id, edit);
    var r := SortByPosition(edited);
    forall x: ScoringRule | x.id != id ensures multiset(edited)[x] == multiset(rules)[x] {
      EditMatchingCounts(rules, id, edit, x);
    }
    forall x | x in r ensures x in edited {
      assert x in multiset(r);
    }
    r
  }

  /** Editing the points of a sorted table moves no rule. */
  lemma UpdatePointsKeepsOrder(rules: seq<ScoringRule>, id: string, points: int)
    requires Sorted(rules)
    ensures var r := UpdateScoringRule(rules, id, SetPoints(points));
            forall i :: 0 <= i < |r| ==> r[i].id == rules[i].id && r[i].position == rules[i].position
  {
    var edited := EditMatching(rules, id, SetPoints(points));
    assert forall i :: 0 <= i < |edited| ==> edited[i].position == rules[i].position;
    SortedUnchanged(edited);
  }

  /** Every operation of the rule editor leaves the table sorted. */
  lemma TableStaysSorted(ed: RuleEditor, id: string, edit: RuleEdit)
    requires Sorted(ed.rules)
    ensures Sorted(AddScoringRule(ed, id).rules)
    ensures ed.draft.position.At? ==> Sorted(AddScoringRuleCorrected(ed, id).rules)
    ensures Sorted(RemoveScoringRule(ed.rules, id))
    ensures Sorted(UpdateScoringRule(ed.rules, id, edit))
  {
  }

  /** The default table is sorted and its suggested next position is 6. */
  lemma DefaultsConsistent()
    ensures Sorted(DefaultRules)
    ensures DefaultDraft.position == SuggestedPosition(DefaultRules)
  {
    DefaultSorted();
    DefaultMaxPosition();
  }

  lemma DefaultSorted()
    ensures Sorted(DefaultRules)
  {
    assert forall i :: 0 <= i < |DefaultRules| ==> DefaultRules[i].position == At(i + 1);
  }
}
