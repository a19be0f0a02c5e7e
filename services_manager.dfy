/**
 * The services admin screen (`ServicesManager`): the list of services, the
 * add/edit modal and the calls it makes to `/api/services`. The React state
 * hooks become the fields of `Manager`; each handler becomes a method.
 * A `fetch` is not performed here: the reply the server gave, or whether
 * the call resolved at all, is a parameter of the method that awaits it.
 */
module Services {
  import opened Common
  import opened ContentForms

  datatype Service = Service(
    id: string,
    title: string,
    slug: string,
    description: string,
    content: string,
    icon: Option<string>,
    features: seq<string>,
    order: int,
    published: bool)

  /** The `Partial<Service>` in the modal; `id` is absent while a new service is drafted. */
  datatype Draft = Draft(
    id: Option<string>,
    title: string,
    slug: string,
    description: string,
    content: string,
    icon: Option<string>,
    features: seq<string>,
    order: int,
    published: bool)

  /** `emptyService`. */
  const EmptyDraft := Draft(None, "", "", "", "", Some(""), [], 0, false)

  function DraftOf(s: Service): Draft
  {
    Draft(Some(s.id), s.title, s.slug, s.description, s.content, s.icon, s.features, s.order, s.published)
  }

  function IdOf(s: Service): string
  {
    s.id
  }

  const Collection := "/api/services"

  /** The request `handleSave` sends for a draft: its whole `Partial<Service>` is the body. */
  function Sent(d: Draft): Option<Request<Draft>>
  {
    SaveRequest(Collection, d.id, d.title, d.slug, d)
  }

  class Manager {
    var services: seq<Service>
    var modalOpen: bool
    var editing: Option<Draft>

    /** The modal is open exactly while a draft is being edited, so its form is shown whenever it is open. */
    predicate Valid()
      reads this
    {
      modalOpen == editing.Some?
    }

    constructor (initialServices: seq<Service>)
      ensures Valid()
      ensures services == initialServices && !modalOpen && editing == None
    {
      services := initialServices;
      modalOpen := false;
      editing := None;
    }

    /** `openAddModal`. */
    method OpenAdd()
      requires Valid()
      modifies this
      ensures Valid()
      ensures services == old(services) && modalOpen && editing == Some(EmptyDraft)
    {
      editing := Some(EmptyDraft);
      modalOpen := true;
    }

    /** `openEditModal`. */
    method OpenEdit(s: Service)
      requires Valid()
      modifies this
      ensures Valid()
      ensures services == old(services) && modalOpen && editing == Some(DraftOf(s))
    {
      editing := Some(DraftOf(s));
      modalOpen := true;
    }

    /** `closeModal`. */
    method Close()
      requires Valid()
      modifies this
      ensures Valid()
      ensures services == old(services) && !modalOpen && editing == None
    {
      modalOpen := false;
      editing := None;
    }

    /** `handleTitleChange`: a slug already typed is kept; an empty one follows the title. */
    method TitleChange(title: string)
      requires Valid()
      modifies this
      ensures Valid()
      ensures old(editing).None? ==> unchanged(this)
      ensures old(editing).Some? ==>
        editing == Some(old(editing).value.(title := title, slug := SlugAfterTitleChange(old(editing).value.slug, title)))
      ensures services == old(services) && modalOpen == old(modalOpen)
    {
      if editing.Some? {
        var d := editing.value;
        editing := Some(d.(title := title, slug := SlugAfterTitleChange(d.slug, title)));
      }
    }

    /** Typing in the slug field; the field exists only while a draft is edited. */
    method SlugChange(slug: string)
      requires Valid() && modalOpen
      modifies this
      ensures Valid()
      ensures editing == Some(old(editing).value.(slug := slug))
      ensures services == old(services) && modalOpen == old(modalOpen)
    {
      editing := Some(editing.value.(slug := slug));
    }

    /** The features text area: one feature per non-blank line. */
    method FeaturesChange(text: string)
      requires Valid() && modalOpen
      modifies this
      ensures Valid()
      ensures editing == Some(old(editing).value.(features := Lines(text)))
      ensures services == old(services) && modalOpen == old(modalOpen)
    {
      editing := Some(editing.value.(features := Lines(text)));
    }

    /**
     * `handleSave`: sends the `SaveRequest` for the draft, and on a successful reply puts the
     * saved service in the list (in place of every entry with its id when editing, at the
     * end when creating) and closes the modal. Nothing changes otherwise.
     */
    method Save(reply: Reply<Service>) returns (request: Option<Request<Draft>>)
      requires Valid()
      modifies this
      ensures Valid()
      ensures request == if old(editing).Some? then Sent(old(editing).value) else None
      ensures request.None? || reply.Failed? ==> unchanged(this)
      ensures request.Some? && reply.Saved? && request.value.verb == Put ==>
        services == MapWhereId(old(services), IdOf, reply.entity.id, (s: Service) => reply.entity)
      ensures request.Some? && reply.Saved? && request.value.verb == Post ==>
        services == old(services) + [reply.entity]
      ensures request.Some? && reply.Saved? ==> !modalOpen && editing == None
    {
      request := if editing.Some? then Sent(editing.value) else None;
      if request.Some? && reply.Saved? {
        if request.value.verb == Put {
          services := MapWhereId(services, IdOf, reply.entity.id, (s: Service) => reply.entity);
        } else {
          services := services + [reply.entity];
        }
        Close();
      }
    }

    /** `togglePublished`: once the PUT resolves, every entry with that id takes the new flag. */
    method TogglePublished(id: string, published: bool, resolved: bool)
      requires Valid()
      modifies this
      ensures Valid()
      ensures !resolved ==> unchanged(this)
      ensures resolved ==> services == MapWhereId(old(services), IdOf, id, (s: Service) => s.(published := published))
      ensures modalOpen == old(modalOpen) && editing == old(editing)
    {
      if resolved {
        services := MapWhereId(services, IdOf, id, (s: Service) => s.(published := published));
      }
    }

    /** `deleteService`: asks first; once the DELETE resolves, the entries with that id leave the list. */
    method Delete(id: string, confirmed: bool, resolved: bool)
      requires Valid()
      modifies this
      ensures Valid()
      ensures !(confirmed && resolved) ==> unchanged(this)
      ensures confirmed && resolved ==> services == RemoveId(old(services), IdOf, id)
      ensures modalOpen == old(modalOpen) && editing == old(editing)
    {
      if confirmed && resolved {
        services := RemoveId(services, IdOf, id);
      }
    }
  }
}
