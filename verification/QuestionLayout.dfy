/**
 The mixed layout of questions and groups (question-group.ts): children of each group and the
 top-level items, each ordered by (order, id).
 */
module QuestionLayout {
  import opened StableSort
  import opened Wrappers

  /** An identifier; the locale order of the source is taken as this order on a rank. */
  type Id = nat

  datatype Question = Question(id: Id, groupId: Option<Id>, layoutOrder: Option<int>, sortOrder: int)

  datatype Group = Group(id: Id, layoutOrder: int)

  datatype Entry = QuestionEntry(id: Id, order: int) | GroupEntry(id: Id, order: int)

  datatype Item = QuestionItem(questionId: Id) | GroupItem(groupId: Id, questionIds: seq<Id>)

  datatype Layout = Layout(childIds: map<Id, seq<Id>>, displayItems: seq<Item>)

  datatype Result = Laid(layout: Layout) | MembershipUnavailable

  function Order(q: Question): int {
    match q.layoutOrder
    case Some(order) => order
    case None => q.sortOrder
  }

  /** By order, then by id. */
  predicate NotAfter(a: Entry, b: Entry) {
    a.order < b.order || (a.order == b.order && a.id <= b.id)
  }

  function QuestionToEntry(q: Question): Entry {
    QuestionEntry(q.id, Order(q))
  }

  function GroupToEntry(g: Group): Entry {
    GroupEntry(g.id, g.layoutOrder)
  }

  function EntryId(e: Entry): Id {
    e.id
  }

  function QuestionEntries(questions: seq<Question>): seq<Entry> {
    Map(QuestionToEntry, questions)
  }

  function GroupEntries(groups: seq<Group>): seq<Entry> {
    Map(GroupToEntry, groups)
  }

  function Ids(entries: seq<Entry>): seq<Id> {
    Map(EntryId, entries)
  }

  /** The questions of one group, in input order; `None` picks the questions outside any group. */
  function Members(questions: seq<Question>, group: Option<Id>): seq<Question> {
    if questions == [] then []
    else
      var rest := Members(questions[..|questions| - 1], group);
      var last := questions[|questions| - 1];
      if last.groupId == group then rest + [last] else rest
  }

  function GroupIds(groups: seq<Group>): set<Id> {
    set i | 0 <= i < |groups| :: groups[i].id
  }

  /** Every grouped question names a known group. */
  predicate MembershipAvailable(questions: seq<Question>, groups: seq<Group>) {
    forall i :: 0 <= i < |questions| && questions[i].groupId.Some? ==> questions[i].groupId.value in GroupIds(groups)
  }

  function ChildIds(questions: seq<Question>, group: Id): seq<Id> {
    Ids(Sort(NotAfter, QuestionEntries(Members(questions, Some(group)))))
  }

  function ToItem(entry: Entry, childIds: map<Id, seq<Id>>): Item {
    match entry
    case QuestionEntry(id, _) => QuestionItem(id)
    case GroupEntry(id, _) => GroupItem(id, if id in childIds then childIds[id] else [])
  }

  function TopEntries(questions: seq<Question>, groups: seq<Group>): seq<Entry> {
    Sort(NotAfter, QuestionEntries(Members(questions, None)) + GroupEntries(groups))
  }

  function LayoutOf(questions: seq<Question>, groups: seq<Group>): Layout {
    var childIds := map g | g in GroupIds(groups) :: ChildIds(questions, g);
    var top := TopEntries(questions, groups);
    Layout(childIds, seq(|top|, i requires 0 <= i < |top| => ToItem(top[i], childIds)))
  }

  /** The layout, or the refusal of a question whose group is unknown. */
  function MixedLayout(questions: seq<Question>, groups: seq<Group>): Result {
    if MembershipAvailable(questions, groups) then Laid(LayoutOf(questions, groups)) else MembershipUnavailable
  }

  lemma {:induction false} MembersNext(questions: seq<Question>, i: nat)
    requires i < |questions|
    ensures forall g :: Members(questions[..i + 1], g)
                     == if questions[i].groupId == g then Members(questions[..i], g) + [questions[i]] else Members(questions[..i], g)
  {
    assert questions[..i + 1][..i] == questions[..i];
  }

  lemma {:induction false} MembershipNext(questions: seq<Question>, groups: seq<Group>, i: nat)
    requires i < |questions| && MembershipAvailable(questions[..i], groups)
    ensures var g := questions[i].groupId;
            MembershipAvailable(questions[..i + 1], groups) <==> (g.Some? ==> g.value in GroupIds(groups))
    ensures !MembershipAvailable(questions[..i + 1], groups) ==> !MembershipAvailable(questions, groups)
  {
    var g := questions[i].groupId;
    if g.Some? {
      assert questions[..i + 1][i].groupId.value == g.value;
    }
  }

  lemma {:induction false} MembersNone(questions: seq<Question>, groups: seq<Group>)
    requires questions == []
    ensures MembershipAvailable(questions, groups)
    ensures forall g :: Members(questions, g) == []
  {
  }

  /** As the source runs it: a map of arrays filled in one loop over the questions, then sorted. */
  method GroupQuestions(questions: seq<Question>, groups: seq<Group>) returns (r: Option<map<Id, seq<Question>>>)
    ensures r.Some? <==> MembershipAvailable(questions, groups)
    ensures r.Some? ==> r.value == map g | g in GroupIds(groups) :: Members(questions, Some(g))
  {
    hide Members, MembershipAvailable;
    MembersNone(questions[..0], groups);
    var grouped: map<Id, seq<Question>> := map g | g in GroupIds(groups) :: [];
    for i := 0 to |questions|
      invariant grouped.Keys == GroupIds(groups)
      invariant MembershipAvailable(questions[..i], groups)
      invariant forall g :: g in grouped ==> grouped[g] == Members(questions[..i], Some(g))
    {
      MembersNext(questions, i);
      MembershipNext(questions, groups, i);
      var q := questions[i];
      if q.groupId.Some? {
        if q.groupId.value !in grouped {
          return None;
        }
        grouped := grouped[q.groupId.value := grouped[q.groupId.value] + [q]];
      }
    }
    assert questions[..|questions|] == questions;
    r := Some(grouped);
  }

  method MixedQuestionLayout(questions: seq<Question>, groups: seq<Group>) returns (r: Result)
    ensures r == MixedLayout(questions, groups)
  {
    hide Sort, Members, QuestionEntries, Ids, MembershipAvailable, GroupIds;
    var grouped := GroupQuestions(questions, groups);
    if grouped == None {
      return MembershipUnavailable;
    }
    var childIds := map g | g in grouped.value :: Ids(Sort(NotAfter, QuestionEntries(grouped.value[g])));
    assert childIds == map g | g in GroupIds(groups) :: ChildIds(questions, g);
    var top := TopEntries(questions, groups);
    r := Laid(Layout(childIds, seq(|top|, i requires 0 <= i < |top| => ToItem(top[i], childIds))));
    assert r.layout.displayItems == LayoutOf(questions, groups).displayItems;
  }

  // ----- Order -----------------------------------------------------------------------------

  lemma NotAfterTotal()
    ensures TotalPreorder(NotAfter)
  {
  }

  /** A list of entries in (order, id) order that holds exactly the given ones. */
  ghost predicate Arranged(entries: seq<Entry>, given: seq<Entry>) {
    Sorted(NotAfter, entries) && multiset(entries) == multiset(given)
  }

  /** Item by item, the layout shows an arrangement of all ungrouped questions and all groups. */
  lemma {:induction false} TopLevelArranged(questions: seq<Question>, groups: seq<Group>)
    ensures var layout := LayoutOf(questions, groups);
            exists entries ::
              && Arranged(entries, QuestionEntries(Members(questions, None)) + GroupEntries(groups))
              && |layout.displayItems| == |entries|
              && (forall i :: 0 <= i < |entries| ==> layout.displayItems[i] == ToItem(entries[i], layout.childIds))
  {
    NotAfterTotal();
    Sorts(NotAfter, QuestionEntries(Members(questions, None)) + GroupEntries(groups));
    hide Sort, Members, QuestionEntries, GroupEntries, ToItem, ChildIds;
    var entries := TopEntries(questions, groups);
    assert Arranged(entries, QuestionEntries(Members(questions, None)) + GroupEntries(groups));
  }

  /** The children listed for a group are an arrangement of exactly its members. */
  lemma {:induction false} ChildrenArranged(questions: seq<Question>, groups: seq<Group>, group: Id)
    requires group in GroupIds(groups)
    ensures var childIds := LayoutOf(questions, groups).childIds;
            group in childIds && exists entries ::
              Arranged(entries, QuestionEntries(Members(questions, Some(group)))) && childIds[group] == Ids(entries)
  {
    NotAfterTotal();
    var given := QuestionEntries(Members(questions, Some(group)));
    Sorts(NotAfter, given);
    hide Sort, Members, QuestionEntries, TopEntries, Ids, GroupIds;
    assert Arranged(Sort(NotAfter, given), given);
    assert LayoutOf(questions, groups).childIds[group] == Ids(Sort(NotAfter, given));
  }

  // ----- Every question exactly once -------------------------------------------------------

  function QuestionIds(questions: seq<Question>): multiset<Id> {
    if questions == [] then multiset{}
    else QuestionIds(questions[..|questions| - 1]) + multiset{questions[|questions| - 1].id}
  }

  /** The question ids an item shows. */
  function Shown(item: Item): multiset<Id> {
    match item
    case QuestionItem(id) => multiset{id}
    case GroupItem(_, ids) => multiset(ids)
  }

  function AllShown(items: seq<Item>): multiset<Id> {
    if items == [] then multiset{} else AllShown(items[..|items| - 1]) + Shown(items[|items| - 1])
  }

  /** The question ids an entry leads to. */
  function Leads(questions: seq<Question>, entry: Entry): multiset<Id> {
    match entry
    case QuestionEntry(id, _) => multiset{id}
    case GroupEntry(g, _) => QuestionIds(Members(questions, Some(g)))
  }

  function AllLead(questions: seq<Question>, entries: seq<Entry>): multiset<Id> {
    if entries == [] then multiset{} else Leads(questions, entries[0]) + AllLead(questions, entries[1..])
  }

  lemma {:induction false} AllLeadAppend(questions: seq<Question>, a: seq<Entry>, b: seq<Entry>)
    ensures AllLead(questions, a + b) == AllLead(questions, a) + AllLead(questions, b)
    decreases a
  {
    hide Leads;
    if a == [] {
      assert a + b == b;
    } else {
      AllLeadAppend(questions, a[1..], b);
      assert (a + b)[1..] == a[1..] + b;
    }
  }

  lemma {:induction false} InsertLeads(questions: seq<Question>, x: Entry, xs: seq<Entry>)
    ensures AllLead(questions, Insert(NotAfter, x, xs)) == Leads(questions, x) + AllLead(questions, xs)
    decreases xs
  {
    hide Leads, NotAfter;
    if xs == [] || !NotAfter(xs[0], x) {
      assert ([x] + xs)[1..] == xs;
    } else {
      InsertLeads(questions, x, xs[1..]);
      var r := Insert(NotAfter, x, xs[1..]);
      assert ([xs[0]] + r)[1..] == r;
    }
  }

  /** Sorting does not change what the entries lead to. */
  lemma {:induction false} SortLeads(questions: seq<Question>, xs: seq<Entry>)
    ensures AllLead(questions, Sort(NotAfter, xs)) == AllLead(questions, xs)
    decreases xs
  {
    hide Leads, NotAfter;
    if xs != [] {
      var front, last := xs[..|xs| - 1], xs[|xs| - 1];
      SortLeads(questions, front);
      InsertLeads(questions, last, Sort(NotAfter, front));
      AllLeadAppend(questions, front, [last]);
      assert xs == front + [last];
      assert AllLead(questions, [last]) == Leads(questions, last) by { LeadsOne(questions, last); }
    }
  }

  lemma {:induction false} LeadsOne(questions: seq<Question>, x: Entry)
    ensures AllLead(questions, [x]) == Leads(questions, x)
  {
    assert [x][1..] == [];
  }

  lemma {:induction false} QuestionEntriesLead(questions: seq<Question>, members: seq<Question>)
    ensures AllLead(questions, QuestionEntries(members)) == QuestionIds(members)
    decreases members
  {
    if members != [] {
      var front, last := members[..|members| - 1], members[|members| - 1];
      QuestionEntriesLead(questions, front);
      assert QuestionEntries(members) == QuestionEntries(front) + [QuestionEntry(last.id, Order(last))];
      AllLeadAppend(questions, QuestionEntries(front), [QuestionEntry(last.id, Order(last))]);
      LeadsOne(questions, QuestionEntry(last.id, Order(last)));
    }
  }

  predicate DistinctGroups(groups: seq<Group>) {
    forall i, j :: 0 <= i < j < |groups| ==> groups[i].id != groups[j].id
  }

  /** Sum of the members of the groups. */
  function GroupMembers(questions: seq<Question>, groups: seq<Group>): multiset<Id> {
    if groups == [] then multiset{}
    else GroupMembers(questions, groups[..|groups| - 1]) + QuestionIds(Members(questions, Some(groups[|groups| - 1].id)))
  }

  lemma {:induction false} GroupEntriesLead(questions: seq<Question>, groups: seq<Group>)
    ensures AllLead(questions, GroupEntries(groups)) == GroupMembers(questions, groups)
    decreases groups
  {
    if groups != [] {
      hide Members, QuestionIds;
      var front, last := groups[..|groups| - 1], groups[|groups| - 1];
      GroupEntriesLead(questions, front);
      MapLast(GroupToEntry, groups);
      AllLeadAppend(questions, GroupEntries(front), [GroupEntry(last.id, last.layoutOrder)]);
      LeadsOne(questions, GroupEntry(last.id, last.layoutOrder));
    }
  }

  /** One more question adds its id to its own group, and to no other. */
  lemma {:induction false} GroupMembersStep(questions: seq<Question>, groups: seq<Group>)
    requires questions != [] && DistinctGroups(groups)
    ensures var front, last := questions[..|questions| - 1], questions[|questions| - 1];
            GroupMembers(questions, groups) == GroupMembers(front, groups)
              + (if last.groupId.Some? && last.groupId.value in GroupIds(groups) then multiset{last.id} else multiset{})
    decreases groups
  {
    if groups != [] {
      hide GroupIds;
      var front, last := questions[..|questions| - 1], questions[|questions| - 1];
      var head, g := groups[..|groups| - 1], groups[|groups| - 1].id;
      GroupMembersStep(questions, head);
      GroupIdsLast(groups);
      AddedMember(questions, Some(g));
      hide Members, QuestionIds, DistinctGroups;
    }
  }

  lemma {:induction false} AddedMember(questions: seq<Question>, group: Option<Id>)
    requires questions != []
    ensures var last := questions[|questions| - 1];
            QuestionIds(Members(questions, group)) == QuestionIds(Members(questions[..|questions| - 1], group))
              + (if last.groupId == group then multiset{last.id} else multiset{})
  {
    AddedId(Members(questions[..|questions| - 1], group), questions[|questions| - 1]);
  }

  lemma {:induction false} AddedId(members: seq<Question>, q: Question)
    ensures QuestionIds(members + [q]) == QuestionIds(members) + multiset{q.id}
  {
    assert (members + [q])[..|members|] == members;
  }

  lemma {:induction false} GroupIdsLast(groups: seq<Group>)
    requires groups != [] && DistinctGroups(groups)
    ensures GroupIds(groups) == GroupIds(groups[..|groups| - 1]) + {groups[|groups| - 1].id}
    ensures groups[|groups| - 1].id !in GroupIds(groups[..|groups| - 1])
  {
    var front := groups[..|groups| - 1];
    forall id | id in GroupIds(groups)
      ensures id in GroupIds(front) + {groups[|groups| - 1].id}
    {
      var i :| 0 <= i < |groups| && groups[i].id == id;
      if i < |front| {
        assert front[i].id == id;
      }
    }
    forall id | id in GroupIds(front)
      ensures id in GroupIds(groups)
    {
      var i :| 0 <= i < |front| && front[i].id == id;
      assert groups[i].id == id;
    }
    assert groups[|groups| - 1].id in GroupIds(groups);
  }

  /** The ungrouped questions and the members of the groups are all the questions. */
  lemma {:induction false} Partition(questions: seq<Question>, groups: seq<Group>)
    requires MembershipAvailable(questions, groups) && DistinctGroups(groups)
    ensures QuestionIds(Members(questions, None)) + GroupMembers(questions, groups) == QuestionIds(questions)
    decreases questions
  {
    if questions == [] {
      NoMembers(groups);
    } else {
      hide GroupIds, GroupMembers, DistinctGroups;
      var front, last := questions[..|questions| - 1], questions[|questions| - 1];
      Partition(front, groups);
      GroupMembersStep(questions, groups);
      AddedId(Members(front, None), last);
    }
  }

  lemma {:induction false} NoMembers(groups: seq<Group>)
    ensures GroupMembers([], groups) == multiset{}
    decreases groups
  {
    if groups != [] {
      NoMembers(groups[..|groups| - 1]);
    }
  }

  lemma {:induction false} EntriesIds(members: seq<Question>, entries: seq<Entry>)
    requires multiset(entries) == multiset(QuestionEntries(members))
    ensures multiset(Ids(entries)) == QuestionIds(members)
  {
    MapOfPermutation(EntryId, entries, QuestionEntries(members));
    IdsOfQuestions(members);
  }

  lemma {:induction false} IdsOfQuestions(members: seq<Question>)
    ensures multiset(Ids(QuestionEntries(members))) == QuestionIds(members)
    decreases members
  {
    if members != [] {
      var front, last := members[..|members| - 1], members[|members| - 1];
      IdsOfQuestions(front);
      MapLast(QuestionToEntry, members);
      MapAppend(EntryId, QuestionEntries(front), [QuestionToEntry(last)]);
      MapOne(EntryId, QuestionToEntry(last));
    }
  }

  /** The items come from the entries, with the children of every group filled in. */
  predicate Rendered(questions: seq<Question>, entries: seq<Entry>, items: seq<Item>, childIds: map<Id, seq<Id>>) {
    && |items| == |entries|
    && (forall i :: 0 <= i < |items| ==> items[i] == ToItem(entries[i], childIds))
    && (forall i :: 0 <= i < |entries| ==> ChildrenKnown(questions, entries[i], childIds))
  }

  predicate ChildrenKnown(questions: seq<Question>, entry: Entry, childIds: map<Id, seq<Id>>) {
    entry.GroupEntry? ==> entry.id in childIds && childIds[entry.id] == ChildIds(questions, entry.id)
  }

  lemma {:induction false} RenderedFront(
      questions: seq<Question>, entries: seq<Entry>, items: seq<Item>, childIds: map<Id, seq<Id>>)
    requires Rendered(questions, entries, items, childIds) && entries != []
    ensures Rendered(questions, entries[..|entries| - 1], items[..|entries| - 1], childIds)
    ensures Shown(items[|items| - 1]) == Leads(questions, entries[|entries| - 1])
  {
    ItemShows(questions, entries[|entries| - 1], childIds);
    hide ToItem, ChildrenKnown, Shown, Leads;
  }

  lemma {:induction false} ItemsShow(
      questions: seq<Question>, entries: seq<Entry>, items: seq<Item>, childIds: map<Id, seq<Id>>)
    requires Rendered(questions, entries, items, childIds)
    ensures AllShown(items) == AllLead(questions, entries)
    decreases entries
  {
    if entries == [] {
      assert items == [];
    } else {
      hide Leads, Shown, AllLead;
      var n := |entries| - 1;
      RenderedFront(questions, entries, items, childIds);
      ItemsShow(questions, entries[..n], items[..n], childIds);
      AllLeadAppend(questions, entries[..n], [entries[n]]);
      assert entries == entries[..n] + [entries[n]];
      LeadsOne(questions, entries[n]);
    }
  }

  lemma {:induction false} ItemShows(questions: seq<Question>, entry: Entry, childIds: map<Id, seq<Id>>)
    requires ChildrenKnown(questions, entry, childIds)
    ensures Shown(ToItem(entry, childIds)) == Leads(questions, entry)
  {
    if entry.GroupEntry? {
      var members := Members(questions, Some(entry.id));
      NotAfterTotal();
      Sorts(NotAfter, QuestionEntries(members));
      EntriesIds(members, Sort(NotAfter, QuestionEntries(members)));
    }
  }

  lemma {:induction false} LayoutRendered(questions: seq<Question>, groups: seq<Group>)
    ensures var layout := LayoutOf(questions, groups);
            Rendered(questions, TopEntries(questions, groups), layout.displayItems, layout.childIds)
  {
    hide ChildIds, Members, QuestionEntries, GroupEntries, ToItem, Sort, GroupIds;
    var entries := QuestionEntries(Members(questions, None)) + GroupEntries(groups);
    var top := TopEntries(questions, groups);
    NotAfterTotal();
    Sorts(NotAfter, entries);
    forall i | 0 <= i < |top| && top[i].GroupEntry?
      ensures top[i].id in GroupIds(groups)
    {
      assert top[i] in multiset(entries);
      GroupEntryKnown(questions, groups, top[i]);
    }
  }

  /** Every question is shown exactly once, on the top level or in its own group. */
  lemma {:induction false} EveryQuestionOnce(questions: seq<Question>, groups: seq<Group>)
    requires MembershipAvailable(questions, groups) && DistinctGroups(groups)
    ensures AllShown(LayoutOf(questions, groups).displayItems) == QuestionIds(questions)
  {
    hide AllShown, AllLead, ChildIds, Members, QuestionIds, GroupMembers, Rendered, LayoutOf, MembershipAvailable, Sort;
    var layout := LayoutOf(questions, groups);
    LayoutRendered(questions, groups);
    ItemsShow(questions, TopEntries(questions, groups), layout.displayItems, layout.childIds);
    var ungrouped := QuestionEntries(Members(questions, None));
    SortLeads(questions, ungrouped + GroupEntries(groups));
    AllLeadAppend(questions, ungrouped, GroupEntries(groups));
    QuestionEntriesLead(questions, Members(questions, None));
    GroupEntriesLead(questions, groups);
    Partition(questions, groups);
  }

  lemma {:induction false} GroupEntryKnown(questions: seq<Question>, groups: seq<Group>, entry: Entry)
    requires entry in QuestionEntries(Members(questions, None)) + GroupEntries(groups) && entry.GroupEntry?
    ensures entry.id in GroupIds(groups)
  {
    hide Members;
    var a, b := QuestionEntries(Members(questions, None)), GroupEntries(groups);
    var i :| 0 <= i < |a + b| && (a + b)[i] == entry;
    assert i >= |a|;
    assert groups[i - |a|].id == entry.id;
  }

  // ----- Independence of the input order ---------------------------------------------------

  lemma {:induction false} MembersCount(questions: seq<Question>, group: Option<Id>, q: Question)
    ensures multiset(Members(questions, group))[q] == if q.groupId == group then multiset(questions)[q] else 0
    decreases questions
  {
    if questions != [] {
      MembersCount(questions[..|questions| - 1], group, q);
      assert questions == questions[..|questions| - 1] + [questions[|questions| - 1]];
    }
  }

  lemma {:induction false} MembersOfPermutation(a: seq<Question>, b: seq<Question>, group: Option<Id>)
    requires multiset(a) == multiset(b)
    ensures multiset(Members(a, group)) == multiset(Members(b, group))
  {
    forall q
      ensures multiset(Members(a, group))[q] == multiset(Members(b, group))[q]
    {
      MembersCount(a, group, q);
      MembersCount(b, group, q);
    }
  }

  /** Question identifiers are distinct, and so are group identifiers; one of each may be equal. */
  predicate DistinctIds(questions: seq<Question>, groups: seq<Group>) {
    (forall i, j :: 0 <= i < j < |questions| ==> questions[i].id != questions[j].id) && DistinctGroups(groups)
  }

  lemma {:induction false} MembersAreQuestions(questions: seq<Question>, group: Option<Id>)
    ensures forall q :: q in Members(questions, group) ==> q in questions && q.groupId == group
    decreases questions
  {
    if questions != [] {
      MembersAreQuestions(questions[..|questions| - 1], group);
    }
  }

  /** The order in which a stable sort leaves questions given before groups: a question wins a tie. */
  predicate QuestionsFirst(a: Entry, b: Entry) {
    NotAfter(a, b) && (NotAfter(b, a) ==> a.QuestionEntry? || b.GroupEntry?)
  }

  lemma QuestionsFirstTotal()
    ensures TotalPreorder(QuestionsFirst)
  {
  }

  lemma {:induction false} EntryKinds(members: seq<Question>, groups: seq<Group>)
    ensures forall e :: e in QuestionEntries(members) ==> e.QuestionEntry?
    ensures forall e :: e in GroupEntries(groups) ==> e.GroupEntry?
  {
  }

  lemma {:induction false} StableTies(a: seq<Entry>, b: seq<Entry>)
    requires (forall e :: e in a ==> e.QuestionEntry?) && forall e :: e in b ==> e.GroupEntry?
    ensures Sorted(QuestionsFirst, Sort(NotAfter, a + b))
    decreases |a| + |b|
  {
    hide Sort, Sorted, QuestionsFirst;
    if b != [] {
      var front, last := b[..|b| - 1], b[|b| - 1];
      StableTies(a, front);
      GroupNext(a + front, last);
      assert a + b == a + front + [last];
    } else if a != [] {
      var front, last := a[..|a| - 1], a[|a| - 1];
      StableTies(front, b);
      assert front + b == front && a + b == front + [last];
      QuestionNext(front, last);
    } else {
      NoEntries(a + b);
    }
  }

  lemma {:induction false} NoEntries(entries: seq<Entry>)
    requires entries == []
    ensures Sorted(QuestionsFirst, Sort(NotAfter, entries))
  {
  }

  lemma {:induction false} GroupNext(entries: seq<Entry>, group: Entry)
    requires group.GroupEntry? && Sorted(QuestionsFirst, Sort(NotAfter, entries))
    ensures Sorted(QuestionsFirst, Sort(NotAfter, entries + [group]))
  {
    NotAfterTotal();
    Sorts(NotAfter, entries);
    SortLast(entries + [group]);
    assert (entries + [group])[..|entries|] == entries;
    hide Sort, Sorted, Insert;
    InsertGroup(group, Sort(NotAfter, entries));
  }

  lemma {:induction false} QuestionNext(entries: seq<Entry>, question: Entry)
    requires question.QuestionEntry? && Sorted(QuestionsFirst, Sort(NotAfter, entries))
    requires forall e :: e in entries ==> e.QuestionEntry?
    ensures Sorted(QuestionsFirst, Sort(NotAfter, entries + [question]))
  {
    NotAfterTotal();
    Sorts(NotAfter, entries);
    SortLast(entries + [question]);
    assert (entries + [question])[..|entries|] == entries;
    hide Sort, Sorted, Insert;
    var sorted := Sort(NotAfter, entries);
    forall e | e in sorted
      ensures e.QuestionEntry?
    {
      assert e in multiset(sorted);
      assert e in entries;
    }
    InsertQuestion(question, sorted);
  }

  lemma {:induction false} SortLast(entries: seq<Entry>)
    requires entries != []
    ensures Sort(NotAfter, entries) == Insert(NotAfter, entries[|entries| - 1], Sort(NotAfter, entries[..|entries| - 1]))
  {
  }

  lemma {:induction false} InsertGroup(group: Entry, sorted: seq<Entry>)
    requires group.GroupEntry? && Sorted(NotAfter, sorted) && Sorted(QuestionsFirst, sorted)
    ensures Sorted(QuestionsFirst, Insert(NotAfter, group, sorted))
  {
    NotAfterTotal();
    QuestionsFirstTotal();
    hide Insert, Sorted;
    InsertFiner(NotAfter, QuestionsFirst, group, sorted);
  }

  lemma {:induction false} InsertQuestion(question: Entry, sorted: seq<Entry>)
    requires question.QuestionEntry? && Sorted(NotAfter, sorted) && Sorted(QuestionsFirst, sorted)
    requires forall e :: e in sorted ==> e.QuestionEntry?
    ensures Sorted(QuestionsFirst, Insert(NotAfter, question, sorted))
  {
    NotAfterTotal();
    QuestionsFirstTotal();
    hide Insert, Sorted;
    InsertFiner(NotAfter, QuestionsFirst, question, sorted);
  }

  lemma {:induction false} NoTies(questions: seq<Question>, groups: seq<Group>, group: Option<Id>)
    requires DistinctIds(questions, groups)
    ensures Antisymmetric(QuestionsFirst, QuestionEntries(Members(questions, group)) + GroupEntries(groups))
  {
    MembersAreQuestions(questions, group);
    var members := Members(questions, group);
    hide Members;
    forall a | a in QuestionEntries(members)
      ensures exists i :: 0 <= i < |questions| && a == QuestionEntry(questions[i].id, Order(questions[i]))
    {
      var k :| 0 <= k < |members| && QuestionEntries(members)[k] == a;
      assert members[k] in questions;
    }
    EntryKinds(members, groups);
  }

  /** Rearranging the questions and rearranging the groups changes nothing in the sorted entries. */
  lemma {:induction false} SortOfPermutation(a: seq<Entry>, b: seq<Entry>, a': seq<Entry>, b': seq<Entry>)
    requires multiset(a) == multiset(a') && multiset(b) == multiset(b')
    requires (forall e :: e in a ==> e.QuestionEntry?) && forall e :: e in b ==> e.GroupEntry?
    requires Antisymmetric(QuestionsFirst, a + b)
    ensures Sort(NotAfter, a + b) == Sort(NotAfter, a' + b')
  {
    NotAfterTotal();
    QuestionsFirstTotal();
    forall e | e in a'
      ensures e.QuestionEntry?
    {
      assert e in multiset(a);
    }
    forall e | e in b'
      ensures e.GroupEntry?
    {
      assert e in multiset(b);
    }
    StableTies(a, b);
    StableTies(a', b');
    Sorts(NotAfter, a + b);
    Sorts(NotAfter, a' + b');
    var x := Sort(NotAfter, a + b);
    forall e | e in x
      ensures e in a + b
    {
      assert e in multiset(x);
    }
    hide Sort, Sorted, QuestionsFirst;
    SortedUnique(QuestionsFirst, x, Sort(NotAfter, a' + b'));
  }

  lemma {:induction false} GroupIdsOfPermutation(a: seq<Group>, b: seq<Group>)
    requires multiset(a) == multiset(b)
    ensures GroupIds(a) <= GroupIds(b)
  {
    forall id | id in GroupIds(a)
      ensures id in GroupIds(b)
    {
      var i :| 0 <= i < |a| && a[i].id == id;
      assert a[i] in multiset(b);
      var j :| 0 <= j < |b| && b[j] == a[i];
      assert b[j].id == id;
    }
  }

  lemma {:induction false} MembershipOfPermutation(
      questions: seq<Question>, groups: seq<Group>, questions': seq<Question>, groups': seq<Group>)
    requires multiset(questions) == multiset(questions') && multiset(groups) == multiset(groups')
    ensures MembershipAvailable(questions, groups) ==> MembershipAvailable(questions', groups')
  {
    GroupIdsOfPermutation(groups, groups');
    if MembershipAvailable(questions, groups) {
      forall i | 0 <= i < |questions'| && questions'[i].groupId.Some?
        ensures questions'[i].groupId.value in GroupIds(groups')
      {
        assert questions'[i] in multiset(questions);
        var j :| 0 <= j < |questions| && questions[j] == questions'[i];
        assert questions[j].groupId.value in GroupIds(groups);
      }
    }
  }

  lemma {:induction false} EntriesOfPermutation(questions: seq<Question>, questions': seq<Question>, group: Option<Id>)
    requires multiset(questions) == multiset(questions')
    ensures multiset(QuestionEntries(Members(questions, group))) == multiset(QuestionEntries(Members(questions', group)))
  {
    hide Members, Map;
    MembersOfPermutation(questions, questions', group);
    MapOfPermutation(QuestionToEntry, Members(questions, group), Members(questions', group));
  }

  lemma {:induction false} SameChildren(questions: seq<Question>, questions': seq<Question>, group: Id)
    requires multiset(questions) == multiset(questions') && DistinctIds(questions, [])
    ensures ChildIds(questions, group) == ChildIds(questions', group)
  {
    hide Members, QuestionEntries, DistinctIds, Sort;
    var a, a' := QuestionEntries(Members(questions, Some(group))), QuestionEntries(Members(questions', Some(group)));
    EntriesOfPermutation(questions, questions', Some(group));
    EntryKinds(Members(questions, Some(group)), []);
    NoTies(questions, [], Some(group));
    NoGroups();
    assert a + [] == a && a' + [] == a';
    SortOfPermutation(a, [], a', []);
  }

  lemma NoGroups()
    ensures GroupEntries([]) == []
  {
  }

  lemma {:induction false} SameTop(
      questions: seq<Question>, groups: seq<Group>, questions': seq<Question>, groups': seq<Group>)
    requires multiset(questions) == multiset(questions') && multiset(groups) == multiset(groups')
    requires DistinctIds(questions, groups)
    ensures TopEntries(questions, groups) == TopEntries(questions', groups')
  {
    hide Members, QuestionEntries, GroupEntries, DistinctIds, Sort, Map;
    EntriesOfPermutation(questions, questions', None);
    assert multiset(GroupEntries(groups)) == multiset(GroupEntries(groups')) by { GroupEntriesOfPermutation(groups, groups'); }
    EntryKinds(Members(questions, None), groups);
    NoTies(questions, groups, None);
    SortOfPermutation(QuestionEntries(Members(questions, None)), GroupEntries(groups),
                      QuestionEntries(Members(questions', None)), GroupEntries(groups'));
  }

  lemma {:induction false} GroupEntriesOfPermutation(groups: seq<Group>, groups': seq<Group>)
    requires multiset(groups) == multiset(groups')
    ensures multiset(GroupEntries(groups)) == multiset(GroupEntries(groups'))
  {
    hide Map;
    MapOfPermutation(GroupToEntry, groups, groups');
  }

  /** With distinct identifiers neither the layout nor the refusal depends on the order of the inputs. */
  lemma {:induction false} InputOrderIrrelevant(
      questions: seq<Question>, groups: seq<Group>, questions': seq<Question>, groups': seq<Group>)
    requires multiset(questions) == multiset(questions') && multiset(groups) == multiset(groups')
    requires DistinctIds(questions, groups)
    ensures MixedLayout(questions, groups) == MixedLayout(questions', groups')
  {
    MembershipOfPermutation(questions, groups, questions', groups');
    MembershipOfPermutation(questions', groups', questions, groups);
    GroupIdsOfPermutation(groups, groups');
    GroupIdsOfPermutation(groups', groups);
    assert DistinctIds(questions, []);
    hide MembershipAvailable, ChildIds, TopEntries, DistinctIds, GroupIds;
    forall g: Id
      ensures ChildIds(questions, g) == ChildIds(questions', g)
    {
      SameChildren(questions, questions', g);
    }
    SameTop(questions, groups, questions', groups');
    assert LayoutOf(questions, groups).childIds == LayoutOf(questions', groups').childIds;
  }

  // ----- The order, field by field ---------------------------------------------------------

  /** The question stands at `order`: its layout order, or its sort order when it has none. */
  predicate StandsAt(q: Question, order: int) {
    q.layoutOrder == Some(order) || (q.layoutOrder == None && q.sortOrder == order)
  }

  /** First by order, then by identifier. */
  predicate Before(order: int, id: Id, laterOrder: int, laterId: Id) {
    order < laterOrder || (order == laterOrder && id <= laterId)
  }

  ghost predicate QuestionAt(questions: seq<Question>, group: Option<Id>, id: Id, order: int) {
    exists q :: q in questions && q.groupId == group && q.id == id && StandsAt(q, order)
  }

  ghost predicate GroupAt(groups: seq<Group>, id: Id, order: int) {
    Group(id, order) in groups
  }

  /** The item stands at `order` among the ungrouped questions and the groups. */
  ghost predicate ItemAt(questions: seq<Question>, groups: seq<Group>, item: Item, order: int) {
    match item
    case QuestionItem(id) => QuestionAt(questions, None, id, order)
    case GroupItem(id, _) => GroupAt(groups, id, order)
  }

  function ItemId(item: Item): Id {
    match item
    case QuestionItem(id) => id
    case GroupItem(id, _) => id
  }

  lemma {:induction false} EntryStands(questions: seq<Question>, group: Option<Id>, entry: Entry)
    requires entry in QuestionEntries(Members(questions, group))
    ensures entry.QuestionEntry? && QuestionAt(questions, group, entry.id, entry.order)
  {
    MembersAreQuestions(questions, group);
    var members := Members(questions, group);
    hide Members;
    var k :| 0 <= k < |members| && QuestionEntries(members)[k] == entry;
    assert members[k] in questions && StandsAt(members[k], entry.order);
  }

  lemma {:induction false} TopEntryStands(
      questions: seq<Question>, groups: seq<Group>, entry: Entry, childIds: map<Id, seq<Id>>)
    requires entry in QuestionEntries(Members(questions, None)) + GroupEntries(groups)
    ensures ItemAt(questions, groups, ToItem(entry, childIds), entry.order) && ItemId(ToItem(entry, childIds)) == entry.id
  {
    hide QuestionEntries, Members;
    if entry in QuestionEntries(Members(questions, None)) {
      EntryStands(questions, None, entry);
    } else {
      var k :| 0 <= k < |groups| && GroupEntries(groups)[k] == entry;
      assert groups[k] in groups;
    }
  }

  /** `x` stands at `a`, `y` at `b`, and `x` may come before `y`. */
  ghost predicate InOrder(questions: seq<Question>, groups: seq<Group>, x: Item, a: int, y: Item, b: int) {
    ItemAt(questions, groups, x, a) && ItemAt(questions, groups, y, b) && Before(a, ItemId(x), b, ItemId(y))
  }

  /** Of two items shown at the top level, the earlier one has the lesser order, or the same and no greater identifier. */
  lemma {:induction false} TopLevelOrdered(questions: seq<Question>, groups: seq<Group>, i: nat, j: nat)
    requires i < j < |LayoutOf(questions, groups).displayItems|
    ensures var items := LayoutOf(questions, groups).displayItems;
            exists a, b :: InOrder(questions, groups, items[i], a, items[j], b)
  {
    NotAfterTotal();
    Sorts(NotAfter, QuestionEntries(Members(questions, None)) + GroupEntries(groups));
    var childIds := LayoutOf(questions, groups).childIds;
    var entries := TopEntries(questions, groups);
    assert LayoutOf(questions, groups).displayItems[i] == ToItem(entries[i], childIds);
    assert LayoutOf(questions, groups).displayItems[j] == ToItem(entries[j], childIds);
    hide LayoutOf, Sort, Members, QuestionEntries, GroupEntries, ItemAt, ToItem, ItemId;
    assert entries[i] in multiset(entries) && entries[j] in multiset(entries);
    TopEntryStands(questions, groups, entries[i], childIds);
    TopEntryStands(questions, groups, entries[j], childIds);
    assert NotAfter(entries[i], entries[j]);
    assert InOrder(questions, groups, ToItem(entries[i], childIds), entries[i].order,
                   ToItem(entries[j], childIds), entries[j].order);
  }

  /** The same of two children of a group. */
  lemma {:induction false} ChildrenOrdered(questions: seq<Question>, group: Id, i: nat, j: nat)
    requires i < j < |ChildIds(questions, group)|
    ensures var ids := ChildIds(questions, group);
            exists a, b ::
              && QuestionAt(questions, Some(group), ids[i], a) && QuestionAt(questions, Some(group), ids[j], b)
              && Before(a, ids[i], b, ids[j])
  {
    NotAfterTotal();
    var given := QuestionEntries(Members(questions, Some(group)));
    Sorts(NotAfter, given);
    hide Sort, Members, QuestionEntries, QuestionAt;
    var entries := Sort(NotAfter, given);
    assert entries[i] in multiset(entries) && entries[j] in multiset(entries);
    EntryStands(questions, Some(group), entries[i]);
    EntryStands(questions, Some(group), entries[j]);
    assert NotAfter(entries[i], entries[j]);
  }
}
