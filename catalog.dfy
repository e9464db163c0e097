/**
 * The forum's topic and section records (src/components/ForumSection.tsx) and what a
 * section shows: the visible topics, the row indicator and the row's controls.
 */
module Catalog {
  import opened Seqs
  import opened Text

  /**
   * A topic. The optional flags of the source (`isPinned?` and the others) are plain
   * booleans here: an absent flag reads as false, and `!undefined` is `true` just as `!false` is.
   */
  datatype Topic = Topic(
    id: int,
    title: string,
    author: string,
    replies: int,
    views: int,
    lastActivity: string,
    isPinned: bool,
    isLocked: bool,
    isHidden: bool,
    authorBanned: bool)

  datatype Section = Section(
    id: string,
    name: string,
    icon: string,
    description: string,
    topics: seq<Topic>,
    color: string)

  /** The four moderation flags of a topic. */
  datatype Flag = Pinned | Locked | Hidden | AuthorBanned

  function FlagOf(t: Topic, f: Flag): bool
  {
    match f
    case Pinned => t.isPinned
    case Locked => t.isLocked
    case Hidden => t.isHidden
    case AuthorBanned => t.authorBanned
  }

  /** `a` and `b` agree on everything but the four flags. */
  predicate SameData(a: Topic, b: Topic)
  {
    a.id == b.id && a.title == b.title && a.author == b.author && a.replies == b.replies
    && a.views == b.views && a.lastActivity == b.lastActivity
  }

  /** `{ ...t, isPinned: !t.isPinned }` and its three siblings. */
  function Toggled(t: Topic, f: Flag): (r: Topic)
    ensures FlagOf(r, f) == !FlagOf(t, f)
    ensures forall g :: g != f ==> FlagOf(r, g) == FlagOf(t, g)
    ensures SameData(r, t)
  {
    match f
    case Pinned => t.(isPinned := !t.isPinned)
    case Locked => t.(isLocked := !t.isLocked)
    case Hidden => t.(isHidden := !t.isHidden)
    case AuthorBanned => t.(authorBanned := !t.authorBanned)
  }

  /** Toggling a flag twice gives back the topic. */
  lemma ToggledTwice(t: Topic, f: Flag)
    ensures Toggled(Toggled(t, f), f) == t
  {
  }

  /** The flags are independent: toggling two of them in either order gives the same topic. */
  lemma ToggledCommute(t: Topic, f: Flag, g: Flag)
    ensures Toggled(Toggled(t, f), g) == Toggled(Toggled(t, g), f)
  {
  }

  /** The updater a toggle handler passes to `updateTopic`. */
  function Flip(f: Flag): Topic -> Topic
  {
    t => Toggled(t, f)
  }

  predicate NotHidden(t: Topic)
  {
    !t.isHidden
  }

  /** `visibleTopics`: every topic for an admin, the topics not hidden for everyone else. */
  function VisibleTopics(section: Section, isAdmin: bool): (r: seq<Topic>)
    ensures isAdmin ==> r == section.topics
    ensures !isAdmin ==> Subsequence(r, section.topics)
    ensures !isAdmin ==> forall i :: 0 <= i < |r| ==> !r[i].isHidden
    ensures !isAdmin ==> forall t: Topic :: !t.isHidden ==> multiset(r)[t] == multiset(section.topics)[t]
  {
    if isAdmin then section.topics
    else
      FilterSubsequence(section.topics, NotHidden);
      FilterMultiset(section.topics, NotHidden);
      Filter(section.topics, NotHidden)
  }

  /** The number in the section header ("N тем"): every topic for an admin, never more than there are. */
  function TopicCount(section: Section, isAdmin: bool): (n: nat)
    ensures isAdmin ==> n == |section.topics|
    ensures n <= |section.topics|
  {
    |VisibleTopics(section, isAdmin)|
  }

  /**
   * Whether the section shows "Пока нет тем в этом разделе" instead of a topic list: for an
   * admin exactly when the section has no topics, for anyone else exactly when every topic
   * is hidden.
   */
  function ShowsEmptyNotice(section: Section, isAdmin: bool): (r: bool)
    ensures r <==>
      if isAdmin then section.topics == []
      else forall i :: 0 <= i < |section.topics| ==> section.topics[i].isHidden
  {
    FilterEmptyIff(section.topics, NotHidden);
    TopicCount(section, isAdmin) == 0
  }

  /** The number of hidden topics. */
  function HiddenCount(topics: seq<Topic>): (n: nat)
  {
    if topics == [] then 0 else (if topics[0].isHidden then 1 else 0) + HiddenCount(topics[1..])
  }

  /** The non-admin count is the number of topics minus the hidden ones. */
  lemma {:induction false} TopicCountNonAdmin(section: Section)
    ensures TopicCount(section, false) + HiddenCount(section.topics) == |section.topics|
    decreases |section.topics|
  {
    if section.topics != [] {
      TopicCountNonAdmin(section.(topics := section.topics[1..]));
    }
  }

  /** The icon at the head of a topic row. */
  datatype Indicator = PinIcon | LockIcon | MessageIcon

  /** Pinned wins over locked, and locked over a plain topic. */
  function RowIndicator(t: Topic): (r: Indicator)
    ensures r == PinIcon <==> t.isPinned
    ensures r == LockIcon <==> !t.isPinned && t.isLocked
    ensures r == MessageIcon <==> !t.isPinned && !t.isLocked
  {
    if t.isPinned then PinIcon else if t.isLocked then LockIcon else MessageIcon
  }

  /** Locking or unlocking a pinned topic does not change its icon, and hiding or banning never does. */
  lemma IndicatorPrecedence(t: Topic)
    ensures t.isPinned ==> RowIndicator(Toggled(t, Locked)) == PinIcon
    ensures RowIndicator(Toggled(t, Hidden)) == RowIndicator(t)
    ensures RowIndicator(Toggled(t, AuthorBanned)) == RowIndicator(t)
  {
  }

  /** The "БАН" marker and the struck-through author name. */
  predicate ShowsBanMarker(t: Topic)
  {
    t.authorBanned
  }

  /** Only the ban toggle switches the marker, and it always does. */
  lemma BanMarkerToggles(t: Topic, f: Flag)
    ensures ShowsBanMarker(Toggled(t, f)) == (ShowsBanMarker(t) != (f == AuthorBanned))
  {
  }

  /** A control in a topic row: the title opens the topic, four buttons moderate it. */
  datatype Control = Open | Moderate(flag: Flag)

  /** A callback fired from a row, with the ids it is called with. */
  datatype Action = Action(control: Control, sectionId: string, topicId: int)

  /**
   * The callbacks a topic row can fire: `onSelectTopic` always, and for an admin
   * `onTogglePin`, `onToggleLock`, `onToggleHide` and `onBanAuthor`, each with
   * `(section.id, topic.id)`.
   */
  function RowActions(section: Section, t: Topic, isAdmin: bool): (r: seq<Action>)
    ensures forall a :: a in r ==> a.sectionId == section.id && a.topicId == t.id
    ensures Action(Open, section.id, t.id) in r
    ensures forall f :: Action(Moderate(f), section.id, t.id) in r <==> isAdmin
  {
    var open := [Action(Open, section.id, t.id)];
    if isAdmin then
      var r := open + [Action(Moderate(Pinned), section.id, t.id), Action(Moderate(Locked), section.id, t.id),
                       Action(Moderate(Hidden), section.id, t.id), Action(Moderate(AuthorBanned), section.id, t.id)];
      ModerationRowComplete(r, section.id, t.id);
      r
    else open
  }

  lemma ModerationRowComplete(r: seq<Action>, sectionId: string, topicId: int)
    requires |r| == 5
    requires r[1] == Action(Moderate(Pinned), sectionId, topicId) && r[2] == Action(Moderate(Locked), sectionId, topicId)
    requires r[3] == Action(Moderate(Hidden), sectionId, topicId) && r[4] == Action(Moderate(AuthorBanned), sectionId, topicId)
    ensures forall f :: Action(Moderate(f), sectionId, topicId) in r
  {
    forall f ensures Action(Moderate(f), sectionId, topicId) in r {
      match f
      case Pinned => assert r[1] == Action(Moderate(f), sectionId, topicId);
      case Locked => assert r[2] == Action(Moderate(f), sectionId, topicId);
      case Hidden => assert r[3] == Action(Moderate(f), sectionId, topicId);
      case AuthorBanned => assert r[4] == Action(Moderate(f), sectionId, topicId);
    }
  }
}
