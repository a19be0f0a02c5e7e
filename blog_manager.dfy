/**
 * The blog admin screen (`BlogManager`): the list of posts, the add/edit
 * modal and the calls it makes to `/api/blog`. Beyond what the services and
 * projects screens do, it stamps `publishedAt` whenever a post is saved or
 * switched to published. Dates are instants in milliseconds since the
 * epoch; the current instant is the parameter `now`.
 */
module Blog {
  import opened Common
  import opened ContentForms

  datatype Post = Post(
    id: string,
    title: string,
    slug: string,
    excerpt: Option<string>,
    content: string,
    coverImage: Option<string>,
    tags: seq<string>,
    featured: bool,
    published: bool,
    publishedAt: Option<int>)

  /** The `Partial<Post>` in the modal; `id` is absent while a new post is drafted. */
  datatype Draft = Draft(
    id: Option<string>,
    title: string,
    slug: string,
    excerpt: Option<string>,
    content: string,
    coverImage: Option<string>,
    tags: seq<string>,
    featured: bool,
    published: bool,
    publishedAt: Option<int>)

  /** `emptyPost`. */
  const EmptyDraft := Draft(None, "", "", Some(""), "", Some(""), [], false, false, None)

  /** `openEditModal` copies the post; `new Date(publishedAt)` is the same instant. */
  function DraftOf(p: Post): Draft
  {
    Draft(Some(p.id), p.title, p.slug, p.excerpt, p.content, p.coverImage, p.tags, p.featured, p.published, p.publishedAt)
  }

  function IdOf(p: Post): string
  {
    p.id
  }

  const Collection := "/api/blog"
  const NotPublished := "Not published"

  /** The post is dated exactly when it is published. */
  predicate Dated(published: bool, publishedAt: Option<int>)
  {
    published <==> publishedAt.Some?
  }

  /** `dataToSend`: the draft, with `publishedAt` set to now when it is published and cleared otherwise. */
  function Payload(d: Draft, now: int): (body: Draft)
    ensures Dated(body.published, body.publishedAt)
    ensures body.published ==> body.publishedAt == Some(now)
    ensures body == d.(publishedAt := body.publishedAt)
  {
    d.(publishedAt := if d.published then Some(now) else None)
  }

  /** The request `handleSave` sends for a draft at instant `now`. */
  function Sent(d: Draft, now: int): Option<Request<Draft>>
  {
    SaveRequest(Collection, d.id, d.title, d.slug, Payload(d, now))
  }

  /** The body of the PUT `togglePublished` sends. */
  datatype PublishChange = PublishChange(published: bool, publishedAt: Option<int>)

  function Change(published: bool, now: int): (c: PublishChange)
    ensures c.published == published && Dated(c.published, c.publishedAt)
    ensures published ==> c.publishedAt == Some(now)
  {
    PublishChange(published, if published then Some(now) else None)
  }

  /** The listed post after `togglePublished`: the flag, and a date exactly when published. */
  function Publish(p: Post, published: bool, now: int): (r: Post)
    ensures r.published == published && Dated(r.published, r.publishedAt)
    ensures published ==> r.publishedAt == Some(now)
    ensures r == p.(published := r.published, publishedAt := r.publishedAt)
  {
    p.(published := published, publishedAt := if published then Some(now) else None)
  }

  /** `formatDate`: an undated post reads "Not published"; a date is rendered by the locale formatter. */
  function FormatDate(date: Option<int>, localeDate: int -> string): (text: string)
    ensures date.None? ==> text == NotPublished
    ensures date.Some? ==> text == localeDate(date.value)
  {
    if date.None? then NotPublished else localeDate(date.value)
  }

  class Manager {
    var posts: seq<Post>
    var modalOpen: bool
    var editing: Option<Draft>

    /** The modal is open exactly while a draft is being edited. */
    predicate Valid()
      reads this
    {
      modalOpen == editing.Some?
    }

    constructor (initialPosts: seq<Post>)
      ensures Valid()
      ensures posts == initialPosts && !modalOpen && editing == None
    {
      posts := initialPosts;
      modalOpen := false;
      editing := None;
    }

    /** `openAddModal`. */
    method OpenAdd()
      requires Valid()
      modifies this
      ensures Valid()
      ensures posts == old(posts) && modalOpen && editing == Some(EmptyDraft)
    {
      editing := Some(EmptyDraft);
      modalOpen := true;
    }

    /** `openEditModal`. */
    method OpenEdit(p: Post)
      requires Valid()
      modifies this
      ensures Valid()
      ensures posts == old(posts) && modalOpen && editing == Some(DraftOf(p))
    {
      editing := Some(DraftOf(p));
      modalOpen := true;
    }

    /** `closeModal`. */
    method Close()
      requires Valid()
      modifies this
      ensures Valid()
      ensures posts == old(posts) && !modalOpen && editing == None
    {
      modalOpen := false;
      editing := None;
    }

    /** `handleTitleChange`: a slug already typed is kept; an empty one follows the title. */
    method TitleChange(title: string)
      requires Valid()
      modifies this
      ensures Valid()
      ensures old(editing).None? ==> unchanged(this)
      ensures old(editing).Some? ==>
        editing == Some(old(editing).value.(title := title, slug := SlugAfterTitleChange(old(editing).value.slug, title)))
      ensures posts == old(posts) && modalOpen == old(modalOpen)
    {
      if editing.Some? {
        var d := editing.value;
        editing := Some(d.(title := title, slug := SlugAfterTitleChange(d.slug, title)));
      }
    }

    /** Typing in the slug field; the field exists only while a draft is edited. */
    method SlugChange(slug: string)
      requires Valid() && modalOpen
      modifies this
      ensures Valid()
      ensures editing == Some(old(editing).value.(slug := slug))
      ensures posts == old(posts) && modalOpen == old(modalOpen)
    {
      editing := Some(editing.value.(slug := slug));
    }

    /** The tags text area: one tag per non-blank line. */
    method TagsChange(text: string)
      requires Valid() && modalOpen
      modifies this
      ensures Valid()
      ensures editing == Some(old(editing).value.(tags := Lines(text)))
      ensures posts == old(posts) && modalOpen == old(modalOpen)
    {
      editing := Some(editing.value.(tags := Lines(text)));
    }

    /**
     * `handleSave` at instant `now`: sends the `SaveRequest` for the draft with its
     * `Payload`, and on a successful reply puts the saved post in the list (in place of
     * every entry with its id when editing, at the end when creating) and closes the modal.
     * Nothing changes otherwise.
     */
    method Save(reply: Reply<Post>, now: int) returns (request: Option<Request<Draft>>)
      requires Valid()
      modifies this
      ensures Valid()
      ensures request == if old(editing).Some? then Sent(old(editing).value, now) else None
      ensures request.None? || reply.Failed? ==> unchanged(this)
      ensures request.Some? && reply.Saved? && request.value.verb == Put ==>
        posts == MapWhereId(old(posts), IdOf, reply.entity.id, (p: Post) => reply.entity)
      ensures request.Some? && reply.Saved? && request.value.verb == Verb.Post ==>
        posts == old(posts) + [reply.entity]
      ensures request.Some? && reply.Saved? ==> !modalOpen && editing == None
    {
      request := if editing.Some? then Sent(editing.value, now) else None;
      if request.Some? && reply.Saved? {
        if request.value.verb == Put {
          posts := MapWhereId(posts, IdOf, reply.entity.id, (p: Post) => reply.entity);
        } else {
          posts := posts + [reply.entity];
        }
        Close();
      }
    }

    /**
     * `togglePublished` at instant `now`: sends the `Change`, and once the PUT resolves
     * every entry with that id is `Publish`ed the same way.
     */
    method TogglePublished(id: string, published: bool, now: int, resolved: bool) returns (change: PublishChange)
      requires Valid()
      modifies this
      ensures Valid()
      ensures change == Change(published, now)
      ensures !resolved ==> unchanged(this)
      ensures resolved ==> posts == MapWhereId(old(posts), IdOf, id, (p: Post) => Publish(p, published, now))
      ensures modalOpen == old(modalOpen) && editing == old(editing)
    {
      change := Change(published, now);
      if resolved {
        posts := MapWhereId(posts, IdOf, id, (p: Post) => Publish(p, published, now));
      }
    }

    /** `toggleFeatured`: once the PUT resolves, every entry with that id takes the new flag. */
    method ToggleFeatured(id: string, featured: bool, resolved: bool)
      requires Valid()
      modifies this
      ensures Valid()
      ensures !resolved ==> unchanged(this)
      ensures resolved ==> posts == MapWhereId(old(posts), IdOf, id, (p: Post) => p.(featured := featured))
      ensures modalOpen == old(modalOpen) && editing == old(editing)
    {
      if resolved {
        posts := MapWhereId(posts, IdOf, id, (p: Post) => p.(featured := featured));
      }
    }

    /** `deletePost`: asks first; once the DELETE resolves, the entries with that id leave the list. */
    method Delete(id: string, confirmed: bool, resolved: bool)
      requires Valid()
      modifies this
      ensures Valid()
      ensures !(confirmed && resolved) ==> unchanged(this)
      ensures confirmed && resolved ==> posts == RemoveId(old(posts), IdOf, id)
      ensures modalOpen == old(modalOpen) && editing == old(editing)
    {
      if confirmed && resolved {
        posts := RemoveId(posts, IdOf, id);
      }
    }
  }

  /** The list keeps "dated exactly when published" for every post through toggling, and the toggled posts agree with the request sent. */
  lemma TogglePublishedKeepsDated(posts: seq<Post>, id: string, published: bool, now: int)
    requires forall i | 0 <= i < |posts| :: Dated(posts[i].published, posts[i].publishedAt)
    ensures var after := MapWhereId(posts, IdOf, id, (p: Post) => Publish(p, published, now));
      var c := Change(published, now);
      (forall i | 0 <= i < |after| :: Dated(after[i].published, after[i].publishedAt))
      && forall i | 0 <= i < |after| && posts[i].id == id :: after[i].published == c.published && after[i].publishedAt == c.publishedAt
  {
  }

  /**
   * Saving a published post again dates it anew: editing a post published at `t` and
   * saving it at a later instant sends a different `publishedAt`.
   */
  lemma ResavingRedatesPost(p: Post, t: int, now: int)
    requires p.published && p.publishedAt == Some(t) && t < now
    requires p.title != "" && p.slug != ""
    ensures Sent(DraftOf(p), now).Some?
    ensures Sent(DraftOf(p), now).value.body.publishedAt == Some(now) != p.publishedAt
  {
  }
}
