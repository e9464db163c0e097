/**
 * The topic view of src/components/TopicView.tsx: the thread of posts with its draft,
 * adding a post, hiding and unhiding a post, the per-viewer filter and the lock gate on
 * the reply form.
 */
module Thread {
  import opened Wrappers
  import opened Text
  import opened Seqs
  import opened Catalog

  /** `Post`; an absent `isHidden` is `false`. */
  datatype Post = Post(id: int, author: string, content: string, date: string, isHidden: bool)

  /** `MOCK_POSTS`, the thread every topic view starts with. */
  const MockPosts: seq<Post> := [
    Post(1, "GameMaster", "Добро пожаловать в обсуждение! Пишите свои мысли и идеи здесь.", "15 фев, 14:30", false),
    Post(2, "ProPlayer99", "Отличная тема, давно ждал обсуждения этого вопроса. Думаю, нужно больше контента для новичков.", "15 фев, 15:10", false),
    Post(3, "NoviceGamer", "Согласен! Было бы здорово иметь больше гайдов по прокачке.", "15 фев, 16:45", false)
  ]

  /** The date every new post carries. */
  const NowLabel := "Сейчас"

  const UserPrefix := "User_"

  /**
   * The author of a new post: "Admin" for an admin, otherwise "User_" followed by the
   * decimal digits of `roll`, which stands for `Math.floor(Math.random() * 1000)`.
   */
  function AuthorLabel(isAdmin: bool, roll: nat): (r: string)
    ensures isAdmin ==> r == "Admin"
    ensures !isAdmin ==> |r| > |UserPrefix| && r[..|UserPrefix|] == UserPrefix
    ensures !isAdmin ==> (forall i :: |UserPrefix| <= i < |r| ==> IsDigit(r[i])) && DecimalValue(r[|UserPrefix|..]) == roll
    ensures !isAdmin ==> (r[|UserPrefix|] == '0' ==> roll == 0)
  {
    if isAdmin then "Admin"
    else
      var digits := Decimal(roll);
      DecimalRoundTrip(roll);
      assert (UserPrefix + digits)[|UserPrefix|..] == digits;
      UserPrefix + digits
  }

  /** The post `handleAddPost` appends, if it appends one; `id` stands for `Date.now()`. */
  function NewPost(draft: string, isAdmin: bool, id: int, roll: nat): (r: Option<Post>)
    ensures r.None? <==> AllSpace(draft)
    ensures r.Some? ==> r.value.id == id && r.value.author == AuthorLabel(isAdmin, roll)
    ensures r.Some? ==> r.value.content == Trim(draft) && r.value.content != []
    ensures r.Some? ==> r.value.date == NowLabel && !r.value.isHidden
  {
    TrimEmptyIff(draft);
    if Trim(draft) == [] then None
    else Some(Post(id, AuthorLabel(isAdmin, roll), Trim(draft), NowLabel, false))
  }

  /** The new `posts` after `handleAddPost`: one post more at the end, or no change for a blank draft. */
  function AddedPosts(posts: seq<Post>, draft: string, isAdmin: bool, id: int, roll: nat): (r: seq<Post>)
    ensures AllSpace(draft) ==> r == posts
    ensures !AllSpace(draft) ==> |r| == |posts| + 1 && r[..|posts|] == posts && Some(r[|posts|]) == NewPost(draft, isAdmin, id, roll)
  {
    match NewPost(draft, isAdmin, id, roll)
    case None => posts
    case Some(p) =>
      assert (posts + [p])[..|posts|] == posts;
      posts + [p]
  }

  /** The new `posts` after `handleHidePost(postId)`. */
  function HideToggled(posts: seq<Post>, postId: int): (r: seq<Post>)
    ensures |r| == |posts|
    ensures forall i :: 0 <= i < |posts| ==> (r[i].id == posts[i].id && r[i].author == posts[i].author &&
      r[i].content == posts[i].content && r[i].date == posts[i].date)
    ensures forall i :: 0 <= i < |posts| ==> r[i].isHidden == (posts[i].isHidden != (posts[i].id == postId))
  {
    if posts == [] then []
    else
      var p := posts[0];
      [if p.id == postId then p.(isHidden := !p.isHidden) else p] + HideToggled(posts[1..], postId)
  }

  /** Hiding the same post twice restores the thread. */
  lemma HideTwice(posts: seq<Post>, postId: int)
    ensures HideToggled(HideToggled(posts, postId), postId) == posts
  {
    var twice := HideToggled(HideToggled(posts, postId), postId);
    assert forall i :: 0 <= i < |posts| ==> twice[i] == posts[i];
  }

  predicate NotHiddenPost(p: Post)
  {
    !p.isHidden
  }

  /** `visiblePosts`: every post for an admin, the posts not hidden for everyone else. */
  function VisiblePosts(posts: seq<Post>, isAdmin: bool): (r: seq<Post>)
    ensures isAdmin ==> r == posts
    ensures !isAdmin ==> Subsequence(r, posts)
    ensures !isAdmin ==> forall i :: 0 <= i < |r| ==> !r[i].isHidden
    ensures !isAdmin ==> forall p: Post :: !p.isHidden ==> multiset(r)[p] == multiset(posts)[p]
  {
    if isAdmin then posts
    else
      FilterSubsequence(posts, NotHiddenPost);
      FilterMultiset(posts, NotHiddenPost);
      Filter(posts, NotHiddenPost)
  }

  /** A new post is visible to every viewer, at the end of what they saw before. */
  lemma AddedPostVisible(posts: seq<Post>, draft: string, isAdmin: bool, id: int, roll: nat, viewerIsAdmin: bool)
    requires !AllSpace(draft)
    ensures VisiblePosts(AddedPosts(posts, draft, isAdmin, id, roll), viewerIsAdmin) ==
      VisiblePosts(posts, viewerIsAdmin) + [NewPost(draft, isAdmin, id, roll).value]
  {
    var p := NewPost(draft, isAdmin, id, roll).value;
    assert AddedPosts(posts, draft, isAdmin, id, roll) == posts + [p];
    FilterAppend(posts, p, NotHiddenPost);
  }

  /** The initial thread hides nothing, so every viewer sees all three posts. */
  lemma MockPostsAllVisible(isAdmin: bool)
    ensures VisiblePosts(MockPosts, isAdmin) == MockPosts
  {
    assert !MockPosts[0].isHidden && !MockPosts[1].isHidden && !MockPosts[2].isHidden;
    FilterKeepsAll(MockPosts, NotHiddenPost);
  }

  /** The reply form is rendered for an open topic; a locked one shows "Тема закрыта для новых ответов" instead. */
  predicate ReplyFormShown(topic: Topic)
  {
    !topic.isLocked
  }

  /** `disabled={!newPost.trim()}` on the reply button: disabled exactly for a blank draft. */
  function ReplyDisabled(draft: string): (r: bool)
    ensures r <==> AllSpace(draft)
  {
    TrimEmptyIff(draft);
    Trim(draft) == []
  }

  /** The reply button is disabled exactly when pressing it would add nothing. */
  lemma ReplyDisabledIff(draft: string, isAdmin: bool, id: int, roll: nat)
    ensures ReplyDisabled(draft) <==> NewPost(draft, isAdmin, id, roll).None?
  {
    TrimEmptyIff(draft);
  }

  /** The state of one topic view: the thread and the reply draft. */
  class ThreadView {
    var posts: seq<Post>
    var newPost: string

    constructor ()
      ensures posts == MockPosts && newPost == []
    {
      posts := MockPosts;
      newPost := [];
    }

    /** The textarea's `onChange`. */
    method SetDraft(v: string)
      modifies this
      ensures newPost == v && posts == old(posts)
    {
      newPost := v;
    }

    /**
     * `handleAddPost`: append the new post and clear the draft, or leave both alone when the
     * draft is blank. The handler itself does not look at the topic's lock.
     */
    method AddPost(isAdmin: bool, id: int, roll: nat)
      modifies this
      ensures posts == AddedPosts(old(posts), old(newPost), isAdmin, id, roll)
      ensures newPost == if AllSpace(old(newPost)) then old(newPost) else []
    {
      TrimEmptyIff(newPost);
      var content := Trim(newPost);
      if content == [] {
        return;
      }
      var author := if isAdmin then "Admin" else UserPrefix + Decimal(roll);
      posts := posts + [Post(id, author, content, NowLabel, false)];
      newPost := [];
    }

    /**
     * Pressing the reply button of the view of `topic`: a locked topic renders no form, so
     * the thread and the draft stay as they were; otherwise this is `handleAddPost`.
     */
    method Reply(topic: Topic, isAdmin: bool, id: int, roll: nat)
      modifies this
      ensures topic.isLocked ==> posts == old(posts) && newPost == old(newPost)
      ensures !topic.isLocked ==> posts == AddedPosts(old(posts), old(newPost), isAdmin, id, roll)
      ensures !topic.isLocked ==> newPost == if AllSpace(old(newPost)) then old(newPost) else []
    {
      if ReplyFormShown(topic) {
        AddPost(isAdmin, id, roll);
      }
    }

    /** `handleHidePost`: flip `isHidden` of the posts with id `postId`. */
    method HidePost(postId: int)
      modifies this
      ensures posts == HideToggled(old(posts), postId) && newPost == old(newPost)
    {
      posts := HideToggled(posts, postId);
    }
  }
}
