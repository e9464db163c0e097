/**
 * The page state of src/pages/Index.tsx: the sections with their topics, the admin-mode
 * flag, the selected topic and the forum name, with the moderation reducer
 * (`updateTopic` and its four toggles), the topic lookup and the two totals.
 */
module ForumPage {
  import opened Wrappers
  import opened Text
  import opened Seqs
  import opened Catalog
  import Header

  /** `{ sectionId, topicId }`, the address of a topic. */
  datatype TopicRef = TopicRef(sectionId: string, topicId: int)

  /** `currentSection` together with `currentTopic`. */
  datatype Selection = Selection(section: Section, topic: Topic)

  /** `s.topics.map((t) => (t.id === topicId ? updater(t) : t))`. */
  function MapTopics(topics: seq<Topic>, topicId: int, upd: Topic -> Topic): (r: seq<Topic>)
    ensures |r| == |topics|
    ensures forall j :: 0 <= j < |topics| ==> r[j] == if topics[j].id == topicId then upd(topics[j]) else topics[j]
  {
    if topics == [] then []
    else [if topics[0].id == topicId then upd(topics[0]) else topics[0]] + MapTopics(topics[1..], topicId, upd)
  }

  /** Two sections agree on everything except their topics. */
  predicate SameHeader(a: Section, b: Section)
  {
    a.id == b.id && a.name == b.name && a.icon == b.icon && a.description == b.description && a.color == b.color
  }

  /** Whether the address `(sectionId, topicId)` names topic `j` of section `i`. */
  predicate Addressed(sections: seq<Section>, i: int, j: int, sectionId: string, topicId: int)
    requires 0 <= i < |sections| && 0 <= j < |sections[i].topics|
  {
    sections[i].id == sectionId && sections[i].topics[j].id == topicId
  }

  /**
   * The new `sections` value `updateTopic` computes: every topic addressed by
   * `(sectionId, topicId)` is replaced by `upd` of it; every other section and topic,
   * and the number and order of both, stay as they were.
   */
  function WithTopicUpdated(sections: seq<Section>, sectionId: string, topicId: int, upd: Topic -> Topic): (r: seq<Section>)
    ensures |r| == |sections|
    ensures forall i :: 0 <= i < |sections| ==> SameHeader(r[i], sections[i]) && |r[i].topics| == |sections[i].topics|
    ensures forall i, j :: 0 <= i < |sections| && 0 <= j < |sections[i].topics| ==>
      r[i].topics[j] == if Addressed(sections, i, j, sectionId, topicId) then upd(sections[i].topics[j]) else sections[i].topics[j]
  {
    if sections == [] then []
    else
      var rest := WithTopicUpdated(sections[1..], sectionId, topicId, upd);
      var r := [SectionUpdated(sections[0], sectionId, topicId, upd)] + rest;
      assert forall i :: 1 <= i < |sections| ==> r[i] == rest[i - 1] && sections[i] == sections[1..][i - 1];
      r
  }

  /** One section after `updateTopic`: its topics mapped when its id matches, unchanged otherwise. */
  function SectionUpdated(s: Section, sectionId: string, topicId: int, upd: Topic -> Topic): (r: Section)
    ensures SameHeader(r, s) && |r.topics| == |s.topics|
    ensures forall j :: 0 <= j < |s.topics| ==>
      r.topics[j] == if s.id == sectionId && s.topics[j].id == topicId then upd(s.topics[j]) else s.topics[j]
  {
    if s.id == sectionId then s.(topics := MapTopics(s.topics, topicId, upd)) else s
  }

  /** Some topic is addressed by `(sectionId, topicId)`. */
  predicate Resolves(sections: seq<Section>, sectionId: string, topicId: int)
  {
    exists i, j :: 0 <= i < |sections| && 0 <= j < |sections[i].topics| && Addressed(sections, i, j, sectionId, topicId)
  }

  /** When `(sectionId, topicId)` does not resolve, `updateTopic` leaves `sections` as it was. */
  lemma UnresolvedLeavesSections(sections: seq<Section>, sectionId: string, topicId: int, upd: Topic -> Topic)
    requires !Resolves(sections, sectionId, topicId)
    ensures WithTopicUpdated(sections, sectionId, topicId, upd) == sections
  {
    var r := WithTopicUpdated(sections, sectionId, topicId, upd);
    forall i | 0 <= i < |sections| ensures r[i] == sections[i] {
      assert r[i].topics == sections[i].topics;
    }
  }

  /** The updater of a toggle handler keeps the topic's id and reply counter. */
  lemma FlipKeepsData(f: Flag)
    ensures forall t :: Flip(f)(t).id == t.id && Flip(f)(t).replies == t.replies
  {
    forall t ensures Flip(f)(t).id == t.id && Flip(f)(t).replies == t.replies {
      assert SameData(Toggled(t, f), t);
    }
  }

  /** Applying the same toggle twice restores `sections`. */
  lemma ToggleTwiceRestores(sections: seq<Section>, sectionId: string, topicId: int, f: Flag)
    ensures WithTopicUpdated(WithTopicUpdated(sections, sectionId, topicId, Flip(f)), sectionId, topicId, Flip(f)) == sections
  {
    var once := WithTopicUpdated(sections, sectionId, topicId, Flip(f));
    var twice := WithTopicUpdated(once, sectionId, topicId, Flip(f));
    FlipKeepsData(f);
    forall i | 0 <= i < |sections| ensures twice[i] == sections[i] {
      forall j | 0 <= j < |sections[i].topics| ensures twice[i].topics[j] == sections[i].topics[j] {
        assert Addressed(once, i, j, sectionId, topicId) == Addressed(sections, i, j, sectionId, topicId);
        ToggledTwice(sections[i].topics[j], f);
      }
      assert twice[i].topics == sections[i].topics;
    }
  }

  /** A toggle flips its flag on exactly the addressed topics and changes nothing else about them. */
  lemma ToggleFlipsOneFlag(sections: seq<Section>, sectionId: string, topicId: int, f: Flag, i: int, j: int)
    requires 0 <= i < |sections| && 0 <= j < |sections[i].topics|
    ensures var t := sections[i].topics[j];
      var t' := WithTopicUpdated(sections, sectionId, topicId, Flip(f))[i].topics[j];
      && SameData(t', t)
      && FlagOf(t', f) == (FlagOf(t, f) != Addressed(sections, i, j, sectionId, topicId))
      && forall g :: g != f ==> FlagOf(t', g) == FlagOf(t, g)
  {
  }

  /**
   * `totalTopics`: the number of topics over all sections. It is zero exactly when every
   * section is empty, and no section holds more topics than the total.
   */
  function TotalTopics(sections: seq<Section>): (n: nat)
    ensures n == 0 <==> forall i :: 0 <= i < |sections| ==> sections[i].topics == []
    ensures forall i :: 0 <= i < |sections| ==> |sections[i].topics| <= n
  {
    if sections == [] then 0
    else
      assert forall i :: 1 <= i < |sections| ==> sections[i] == sections[1..][i - 1];
      |sections[0].topics| + TotalTopics(sections[1..])
  }

  predicate RepliesNonNegative(topics: seq<Topic>)
  {
    forall j :: 0 <= j < |topics| ==> topics[j].replies >= 0
  }

  /** The sum of the topics' `replies` counters. */
  function SumReplies(topics: seq<Topic>): (n: int)
    ensures topics == [] ==> n == 0
    ensures RepliesNonNegative(topics) ==> n >= 0
  {
    if topics == [] then 0 else topics[0].replies + SumReplies(topics[1..])
  }

  /**
   * `totalPosts`: the sum of every topic's `replies` counter over all sections. With no
   * negative counter it is at least any one section's sum, and it is zero when every
   * section is empty.
   */
  function TotalPosts(sections: seq<Section>): (n: int)
    ensures (forall i :: 0 <= i < |sections| ==> sections[i].topics == []) ==> n == 0
    ensures (forall i :: 0 <= i < |sections| ==> RepliesNonNegative(sections[i].topics)) ==>
      n >= 0 && forall i :: 0 <= i < |sections| ==> SumReplies(sections[i].topics) <= n
  {
    if sections == [] then 0
    else
      assert forall i :: 1 <= i < |sections| ==> sections[i] == sections[1..][i - 1];
      SumReplies(sections[0].topics) + TotalPosts(sections[1..])
  }

  lemma {:induction false} SumRepliesKept(topics: seq<Topic>, topicId: int, upd: Topic -> Topic)
    requires forall t :: upd(t).replies == t.replies
    ensures SumReplies(MapTopics(topics, topicId, upd)) == SumReplies(topics)
  {
    if topics != [] {
      var r := MapTopics(topics, topicId, upd);
      assert r[1..] == MapTopics(topics[1..], topicId, upd);
      SumRepliesKept(topics[1..], topicId, upd);
    }
  }

  /**
   * `updateTopic` never changes `totalTopics`, and it keeps `totalPosts` whenever the
   * updater keeps the reply counter, as all four toggles do.
   */
  lemma {:induction false} TotalsKept(sections: seq<Section>, sectionId: string, topicId: int, upd: Topic -> Topic)
    requires forall t :: upd(t).replies == t.replies
    ensures TotalTopics(WithTopicUpdated(sections, sectionId, topicId, upd)) == TotalTopics(sections)
    ensures TotalPosts(WithTopicUpdated(sections, sectionId, topicId, upd)) == TotalPosts(sections)
  {
    if sections != [] {
      var r := WithTopicUpdated(sections, sectionId, topicId, upd);
      assert r[1..] == WithTopicUpdated(sections[1..], sectionId, topicId, upd);
      TotalsKept(sections[1..], sectionId, topicId, upd);
      if sections[0].id == sectionId {
        SumRepliesKept(sections[0].topics, topicId, upd);
      }
    }
  }

  /** No flag toggle changes either total. */
  lemma ToggleKeepsTotals(sections: seq<Section>, sectionId: string, topicId: int, f: Flag)
    ensures TotalTopics(WithTopicUpdated(sections, sectionId, topicId, Flip(f))) == TotalTopics(sections)
    ensures TotalPosts(WithTopicUpdated(sections, sectionId, topicId, Flip(f))) == TotalPosts(sections)
  {
    FlipKeepsData(f);
    TotalsKept(sections, sectionId, topicId, Flip(f));
  }

  function HasSectionId(id: string): Section -> bool
  {
    (s: Section) => s.id == id
  }

  function HasTopicId(id: int): Topic -> bool
  {
    (t: Topic) => t.id == id
  }

  /**
   * `currentSection` and `currentTopic`: the first section with the selected section id,
   * and in it the first topic with the selected topic id.
   */
  function CurrentTopic(sections: seq<Section>, selected: Option<TopicRef>): (r: Option<Selection>)
    ensures selected.None? ==> r.None?
    ensures r.Some? ==>
      && r.value.section in sections && r.value.section.id == selected.value.sectionId
      && r.value.topic in r.value.section.topics && r.value.topic.id == selected.value.topicId
  {
    match selected
    case None => None
    case Some(ref) =>
      match FindIndex(sections, HasSectionId(ref.sectionId))
      case None => None
      case Some(i) =>
        match FindIndex(sections[i].topics, HasTopicId(ref.topicId))
        case None => None
        case Some(j) => Some(Selection(sections[i], sections[i].topics[j]))
  }

  /**
   * The page shows the topic view instead of the section list; it does so only when the
   * selected address names a topic.
   */
  function ShowsTopicView(sections: seq<Section>, selected: Option<TopicRef>): (r: bool)
    ensures r ==> selected.Some? && Resolves(sections, selected.value.sectionId, selected.value.topicId)
  {
    match CurrentTopic(sections, selected)
    case None => false
    case Some(_) =>
      var ref := selected.value;
      var i := FindIndex(sections, HasSectionId(ref.sectionId)).value;
      var j := FindIndex(sections[i].topics, HasTopicId(ref.topicId)).value;
      assert Addressed(sections, i, j, ref.sectionId, ref.topicId);
      true
  }

  /** An id-keeping update, such as a moderation toggle, neither opens nor closes the topic view. */
  lemma ViewSurvivesUpdate(sections: seq<Section>, sectionId: string, topicId: int, upd: Topic -> Topic, selected: Option<TopicRef>)
    requires KeepsIds(upd)
    ensures ShowsTopicView(WithTopicUpdated(sections, sectionId, topicId, upd), selected) == ShowsTopicView(sections, selected)
  {
    if selected.Some? {
      var ref := selected.value;
      var r := WithTopicUpdated(sections, sectionId, topicId, upd);
      FindIndexPointwise(sections, HasSectionId(ref.sectionId), r, HasSectionId(ref.sectionId));
      match FindIndex(sections, HasSectionId(ref.sectionId))
      case None =>
      case Some(i) =>
        FindIndexPointwise(sections[i].topics, HasTopicId(ref.topicId), r[i].topics, HasTopicId(ref.topicId));
    }
  }

  predicate SectionIdsDistinct(sections: seq<Section>)
  {
    forall i, k :: 0 <= i < k < |sections| ==> sections[i].id != sections[k].id
  }

  /** The ids of `topics`, in order. */
  function Ids(topics: seq<Topic>): (r: seq<int>)
    ensures |r| == |topics|
    ensures forall j :: 0 <= j < |topics| ==> r[j] == topics[j].id
  {
    if topics == [] then [] else [topics[0].id] + Ids(topics[1..])
  }

  /** Every topic id, section by section. */
  function TopicIds(sections: seq<Section>): (r: seq<int>)
    ensures |r| == TotalTopics(sections)
  {
    if sections == [] then [] else Ids(sections[0].topics) + TopicIds(sections[1..])
  }

  predicate Distinct(s: seq<int>)
  {
    forall a, b :: 0 <= a < b < |s| ==> s[a] != s[b]
  }

  /** No id occurs twice among all topics of all sections. */
  predicate TopicIdsDistinct(sections: seq<Section>)
  {
    Distinct(TopicIds(sections))
  }

  lemma {:induction false} TotalTopicsAppend(a: seq<Section>, b: seq<Section>)
    ensures TotalTopics(a + b) == TotalTopics(a) + TotalTopics(b)
  {
    if a == [] {
      assert a + b == b;
    } else {
      assert (a + b)[1..] == a[1..] + b;
      TotalTopicsAppend(a[1..], b);
    }
  }

  /** Topic `j` of section `i` sits at position `TotalTopics(sections[..i]) + j` of `TopicIds`. */
  lemma {:induction false} TopicIdsAt(sections: seq<Section>, i: nat, j: nat)
    requires i < |sections| && j < |sections[i].topics|
    ensures TotalTopics(sections[..i]) + j < |TopicIds(sections)|
    ensures TopicIds(sections)[TotalTopics(sections[..i]) + j] == sections[i].topics[j].id
  {
    if i == 0 {
      assert sections[..0] == [];
      assert TotalTopics(sections) == |sections[0].topics| + TotalTopics(sections[1..]);
    } else {
      assert sections[..i] == [sections[0]] + sections[1..][..i - 1];
      TopicIdsAt(sections[1..], i - 1, j);
    }
  }

  /** Distinct positions of topics give distinct positions in `TopicIds`. */
  lemma PositionsDiffer(sections: seq<Section>, i: nat, j: nat, k: nat, l: nat)
    requires i < |sections| && j < |sections[i].topics| && k < |sections| && l < |sections[k].topics|
    requires i < k
    ensures TotalTopics(sections[..i]) + j < TotalTopics(sections[..k]) + l
  {
    assert sections[..k] == sections[..i] + [sections[i]] + sections[i + 1..k];
    TotalTopicsAppend(sections[..i] + [sections[i]], sections[i + 1..k]);
    TotalTopicsAppend(sections[..i], [sections[i]]);
  }

  /**
   * Distinct topic ids mean what they say: two topics with the same id, in the same
   * section or in different ones, are the same topic of the same section.
   */
  lemma SameIdSameTopic(sections: seq<Section>, i: nat, j: nat, k: nat, l: nat)
    requires TopicIdsDistinct(sections)
    requires i < |sections| && j < |sections[i].topics| && k < |sections| && l < |sections[k].topics|
    requires sections[i].topics[j].id == sections[k].topics[l].id
    ensures i == k && j == l
  {
    TopicIdsAt(sections, i, j);
    TopicIdsAt(sections, k, l);
    if i < k {
      PositionsDiffer(sections, i, j, k, l);
    } else if k < i {
      PositionsDiffer(sections, k, l, i, j);
    }
  }

  /** With the page invariant, at most one topic answers an address `(sectionId, topicId)`. */
  lemma AddressUnambiguous(sections: seq<Section>, sectionId: string, topicId: int, i: nat, j: nat, k: nat, l: nat)
    requires SectionIdsDistinct(sections) && TopicIdsDistinct(sections)
    requires i < |sections| && j < |sections[i].topics| && k < |sections| && l < |sections[k].topics|
    requires Addressed(sections, i, j, sectionId, topicId) && Addressed(sections, k, l, sectionId, topicId)
    ensures i == k && j == l
  {
    SameIdSameTopic(sections, i, j, k, l);
  }

  /**
   * With distinct section ids, the topic view is shown exactly when a section with the
   * selected section id holds a topic with the selected topic id.
   */
  lemma ShowsTopicViewIff(sections: seq<Section>, ref: TopicRef)
    requires SectionIdsDistinct(sections)
    ensures ShowsTopicView(sections, Some(ref)) <==> Resolves(sections, ref.sectionId, ref.topicId)
  {
    if Resolves(sections, ref.sectionId, ref.topicId) {
      var i, j :| 0 <= i < |sections| && 0 <= j < |sections[i].topics| && Addressed(sections, i, j, ref.sectionId, ref.topicId);
      assert HasSectionId(ref.sectionId)(sections[i]);
      var fi := FindIndex(sections, HasSectionId(ref.sectionId));
      assert fi == Some(i);
      assert HasTopicId(ref.topicId)(sections[i].topics[j]);
    }
  }

  lemma IdsOfMapTopics(topics: seq<Topic>, topicId: int, upd: Topic -> Topic)
    requires KeepsIds(upd)
    ensures Ids(MapTopics(topics, topicId, upd)) == Ids(topics)
  {
  }

  /** The updater never changes a topic's id, as every moderation toggle does. */
  ghost predicate KeepsIds(upd: Topic -> Topic)
  {
    forall t :: upd(t).id == t.id
  }

  /** An id-keeping updater keeps every section id and every topic id in place. */
  lemma {:induction false} IdsKept(sections: seq<Section>, sectionId: string, topicId: int, upd: Topic -> Topic)
    requires KeepsIds(upd)
    ensures TopicIds(WithTopicUpdated(sections, sectionId, topicId, upd)) == TopicIds(sections)
    ensures SectionIdsDistinct(sections) ==> SectionIdsDistinct(WithTopicUpdated(sections, sectionId, topicId, upd))
  {
    if sections != [] {
      var r := WithTopicUpdated(sections, sectionId, topicId, upd);
      assert r[1..] == WithTopicUpdated(sections[1..], sectionId, topicId, upd);
      IdsKept(sections[1..], sectionId, topicId, upd);
      IdsOfMapTopics(sections[0].topics, topicId, upd);
    }
  }

  /** The state of the `Index` page and its handlers. */
  class Page {
    var forumName: string
    var isAdmin: bool
    var sections: seq<Section>
    var selectedTopic: Option<TopicRef>

    /** Section ids and topic ids are unique, so every address names at most one topic. */
    ghost predicate Valid()
      reads this
    {
      SectionIdsDistinct(sections) && TopicIdsDistinct(sections)
    }

    /** The initial state: "Game Forum", user mode, the seed sections, nothing selected. */
    constructor ()
      ensures Valid()
      ensures forumName == "Game Forum" && !isAdmin && sections == InitialSections && selectedTopic == None
    {
      forumName := "Game Forum";
      isAdmin := false;
      sections := InitialSections;
      selectedTopic := None;
      SeedIdsDistinct();
    }

    /** `updateTopic`: apply `upd` to the addressed topics; an id-keeping `upd` keeps the ids unique. */
    method UpdateTopic(sectionId: string, topicId: int, upd: Topic -> Topic)
      modifies this
      ensures sections == WithTopicUpdated(old(sections), sectionId, topicId, upd)
      ensures forumName == old(forumName) && isAdmin == old(isAdmin) && selectedTopic == old(selectedTopic)
      ensures KeepsIds(upd) ==> TopicIds(sections) == old(TopicIds(sections))
      ensures KeepsIds(upd) ==> (old(Valid()) ==> Valid())
    {
      var updated := WithTopicUpdated(sections, sectionId, topicId, upd);
      if KeepsIds(upd) {
        IdsKept(sections, sectionId, topicId, upd);
      }
      sections := updated;
    }

    /**
     * `handleTogglePin`, `handleToggleLock`, `handleToggleHide` and `handleBanAuthor`: flip
     * flag `f` of the addressed topic. The ids stay unique, the statistics totals stay as they
     * were, and an open topic view stays open.
     */
    method Toggle(f: Flag, sectionId: string, topicId: int)
      modifies this
      ensures sections == WithTopicUpdated(old(sections), sectionId, topicId, Flip(f))
      ensures forumName == old(forumName) && isAdmin == old(isAdmin) && selectedTopic == old(selectedTopic)
      ensures old(Valid()) ==> Valid()
      ensures TotalTopics(sections) == old(TotalTopics(sections)) && TotalPosts(sections) == old(TotalPosts(sections))
      ensures ShowsTopicView(sections, selectedTopic) == old(ShowsTopicView(sections, selectedTopic))
    {
      FlipKeepsData(f);
      ToggleKeepsTotals(sections, sectionId, topicId, f);
      ViewSurvivesUpdate(sections, sectionId, topicId, Flip(f), selectedTopic);
      UpdateTopic(sectionId, topicId, Flip(f));
    }

    /** `handleSelectTopic`. */
    method SelectTopic(sectionId: string, topicId: int)
      modifies this
      ensures selectedTopic == Some(TopicRef(sectionId, topicId))
      ensures forumName == old(forumName) && isAdmin == old(isAdmin) && sections == old(sections)
    {
      selectedTopic := Some(TopicRef(sectionId, topicId));
    }

    /** A callback fired from a topic row, routed to its handler. */
    method Dispatch(a: Action)
      modifies this
      ensures a.control == Open ==> selectedTopic == Some(TopicRef(a.sectionId, a.topicId)) && sections == old(sections)
      ensures a.control.Moderate? ==>
        sections == WithTopicUpdated(old(sections), a.sectionId, a.topicId, Flip(a.control.flag)) && selectedTopic == old(selectedTopic)
      ensures forumName == old(forumName) && isAdmin == old(isAdmin)
      ensures old(Valid()) ==> Valid()
    {
      match a.control
      case Open => SelectTopic(a.sectionId, a.topicId);
      case Moderate(f) => Toggle(f, a.sectionId, a.topicId);
    }

    /** `onBack` of the topic view: return to the section list. */
    method Back()
      modifies this
      ensures selectedTopic == None && !ShowsTopicView(sections, selectedTopic)
      ensures forumName == old(forumName) && isAdmin == old(isAdmin) && sections == old(sections)
    {
      selectedTopic := None;
    }

    /** `onToggleAdmin` of the header: switch between admin and user mode. */
    method ToggleAdmin()
      modifies this
      ensures isAdmin == !old(isAdmin)
      ensures forumName == old(forumName) && sections == old(sections) && selectedTopic == old(selectedTopic)
    {
      isAdmin := !isAdmin;
    }

    /** The header's pencil, given the page's mode and name: in user mode the editor stays closed. */
    method StartRename(h: Header.Editor)
      modifies h
      ensures Header.EditEntryShown(isAdmin, old(h.isEditing)) ==> h.isEditing && h.editValue == forumName
      ensures !Header.EditEntryShown(isAdmin, old(h.isEditing)) ==> h.isEditing == old(h.isEditing) && h.editValue == old(h.editValue)
      ensures !isAdmin ==> h.isEditing == old(h.isEditing) && h.editValue == old(h.editValue)
    {
      h.PressPencil(isAdmin, forumName);
    }

    /** The header's save: rename the forum to the trimmed input unless it is blank, and close the editor. */
    method SaveName(h: Header.Editor)
      modifies this, h
      ensures forumName == match Header.SaveResult(old(h.editValue)) case Some(n) => n case None => old(forumName)
      ensures !h.isEditing && h.editValue == old(h.editValue)
      ensures isAdmin == old(isAdmin) && sections == old(sections) && selectedTopic == old(selectedTopic)
    {
      var rename := h.Save();
      if rename.Some? {
        forumName := rename.value;
      }
    }
  }

  /** `INITIAL_SECTIONS`, one constant per section's topic list. */
  const SupportTopics: seq<Topic> := [
    Topic(1, "Не могу зайти в аккаунт после обновления", "Player_228", 12, 345, "2 мин", true, false, false, false),
    Topic(2, "Баг с текстурами на Android 14", "BugHunter", 5, 120, "15 мин", false, false, false, false),
    Topic(3, "Как восстановить прогресс?", "NewPlayer", 8, 230, "1 час", false, false, false, false)
  ]

  const NewsTopics: seq<Topic> := [
    Topic(4, "🔥 Обновление 4.2 — новая карта и оружие", "Admin", 47, 2100, "5 мин", true, false, false, false),
    Topic(5, "Технические работы 17 февраля", "Admin", 15, 890, "30 мин", false, true, false, false),
    Topic(6, "Итоги зимнего ивента", "Moderator", 23, 560, "3 часа", false, false, false, false)
  ]

  const DiscussionTopics: seq<Topic> := [
    Topic(7, "Какой класс сильнее в текущей мете?", "MetaGamer", 89, 1500, "1 мин", false, false, false, false),
    Topic(8, "Ваши любимые моменты в игре", "Nostalgic", 34, 670, "20 мин", false, false, false, false),
    Topic(9, "Спамер продаёт читы — нужен бан", "FairPlay", 6, 180, "45 мин", false, false, true, false)
  ]

  const GuideTopics: seq<Topic> := [
    Topic(10, "Полный гайд по прокачке с нуля до 100 уровня", "ProGuide", 56, 3400, "10 мин", true, false, false, false),
    Topic(11, "Фарм денег: топ-5 способов 2026", "MoneyMaker", 28, 1200, "2 часа", false, false, false, false),
    Topic(12, "Секретные локации на новой карте", "Explorer", 19, 870, "4 часа", false, false, false, false)
  ]

  const EventTopics: seq<Topic> := [
    Topic(13, "🏆 Турнир 2v2 — призовой фонд 50,000", "EventManager", 41, 1800, "3 мин", true, false, false, false),
    Topic(14, "Конкурс скриншотов — голосование", "Community", 67, 940, "1 час", false, false, false, false)
  ]

  const TradeTopics: seq<Topic> := [
    Topic(15, "Продам легендарное оружие — дёшево", "Trader_Max", 14, 420, "8 мин", false, false, false, false),
    Topic(16, "Обмен редких скинов", "SkinCollector", 9, 310, "25 мин", false, false, false, false),
    Topic(17, "[СКАМ] Осторожно мошенник user_toxic", "WatchDog", 22, 750, "50 мин", false, false, false, true)
  ]

  const SupportSection := Section("support", "Поддержка", "LifeBuoy", "Вопросы и помощь по игре", SupportTopics, "bg-[hsl(var(--forum-blue))]")
  const NewsSection := Section("news", "Новости", "Newspaper", "Обновления и анонсы", NewsTopics, "bg-[hsl(var(--primary))]")
  const DiscussionsSection := Section("discussions", "Обсуждения", "MessagesSquare", "Общение на игровые темы", DiscussionTopics, "bg-[hsl(var(--forum-orange))]")
  const GuidesSection := Section("guides", "Гайды", "BookOpen", "Руководства и советы", GuideTopics, "bg-[hsl(var(--forum-gold))]")
  const EventsSection := Section("events", "События", "CalendarDays", "Турниры, ивенты и конкурсы", EventTopics, "bg-purple-600")
  const TradeSection := Section("trade", "Торговля", "ShoppingCart", "Обмен и продажа игровых предметов", TradeTopics, "bg-emerald-600")

  const InitialSections: seq<Section> := [SupportSection, NewsSection, DiscussionsSection, GuidesSection, EventsSection, TradeSection]

  /** The seed has distinct section ids and distinct topic ids across all sections. */
  lemma SeedIdsDistinct()
    ensures SectionIdsDistinct(InitialSections)
    ensures TopicIdsDistinct(InitialSections)
  {
    SeedTopicIds();
    SeedSectionIds();
  }

  /** The consecutive integers `lo, lo + 1, ..., hi - 1`. */
  function Range(lo: int, hi: int): (r: seq<int>)
    requires lo <= hi
    ensures |r| == hi - lo
    ensures forall i :: 0 <= i < |r| ==> r[i] == lo + i
    decreases hi - lo
  {
    if lo == hi then [] else [lo] + Range(lo + 1, hi)
  }

  lemma RangeAppend(lo: int, mid: int, hi: int)
    requires lo <= mid <= hi
    ensures Range(lo, mid) + Range(mid, hi) == Range(lo, hi)
  {
  }

  lemma SeedTopicIds()
    ensures TopicIds(InitialSections) == Range(1, 18)
  {
    SeedTopicIdsFrom(0);
    assert InitialSections[0..] == InitialSections;
  }

  /** Section `k` of the seed numbers its topics `SeedStart(k)` up to `SeedStart(k + 1) - 1`. */
  function SeedStart(k: nat): (id: int)
    requires k <= 6
  {
    [1, 4, 7, 10, 13, 15, 18][k]
  }

  lemma SeedSectionTopicIds(k: nat)
    requires k < 6
    ensures SeedStart(k) <= SeedStart(k + 1)
    ensures Ids(InitialSections[k].topics) == Range(SeedStart(k), SeedStart(k + 1))
  {
    if k == 0 {
      assert InitialSections[0].topics == SupportTopics;
    } else if k == 1 {
      assert InitialSections[1].topics == NewsTopics;
    } else if k == 2 {
      assert InitialSections[2].topics == DiscussionTopics;
    } else if k == 3 {
      assert InitialSections[3].topics == GuideTopics;
    } else if k == 4 {
      assert InitialSections[4].topics == EventTopics;
    } else {
      assert InitialSections[5].topics == TradeTopics;
    }
  }

  lemma {:induction false} SeedTopicIdsFrom(k: nat)
    requires k <= 6
    ensures SeedStart(k) <= 18
    ensures TopicIds(InitialSections[k..]) == Range(SeedStart(k), 18)
    decreases 6 - k
  {
    if k == 6 {
      assert InitialSections[6..] == [];
    } else {
      SeedTopicIdsFrom(k + 1);
      SeedSectionTopicIds(k);
      assert InitialSections[k..][1..] == InitialSections[k + 1..];
      RangeAppend(SeedStart(k), SeedStart(k + 1), 18);
    }
  }

  lemma SeedSectionIds()
    ensures SectionIdsDistinct(InitialSections)
  {
  }

  /** The seed holds seventeen topics, the `totalTopics` the statistics bar starts with. */
  lemma SeedTopicCount()
    ensures TotalTopics(InitialSections) == 17
  {
    SeedTopicIds();
  }
}
