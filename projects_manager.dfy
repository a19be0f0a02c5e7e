/**
 * The projects admin screen (`ProjectsManager`): the list of portfolio
 * projects, the add/edit modal and the calls it makes to `/api/projects`.
 * As for services, the state hooks are the fields of `Manager` and the
 * outcome of each `fetch` is a parameter.
 */
module Projects {
  import opened Common
  import opened ContentForms

  datatype Project = Project(
    id: string,
    title: string,
    slug: string,
    description: string,
    content: string,
    image: Option<string>,
    technologies: seq<string>,
    url: Option<string>,
    github: Option<string>,
    featured: bool,
    published: bool)

  /** The `Partial<Project>` in the modal; `id` is absent while a new project is drafted. */
  datatype Draft = Draft(
    id: Option<string>,
    title: string,
    slug: string,
    description: string,
    content: string,
    image: Option<string>,
    technologies: seq<string>,
    url: Option<string>,
    github: Option<string>,
    featured: bool,
    published: bool)

  /** `emptyProject`. */
  const EmptyDraft := Draft(None, "", "", "", "", Some(""), [], Some(""), Some(""), false, false)

  function DraftOf(p: Project): Draft
  {
    Draft(Some(p.id), p.title, p.slug, p.description, p.content, p.image, p.technologies, p.url, p.github, p.featured, p.published)
  }

  function IdOf(p: Project): string
  {
    p.id
  }

  const Collection := "/api/projects"

  /** The request `handleSave` sends for a draft: its whole `Partial<Project>` is the body. */
  function Sent(d: Draft): Option<Request<Draft>>
  {
    SaveRequest(Collection, d.id, d.title, d.slug, d)
  }

  class Manager {
    var projects: seq<Project>
    var modalOpen: bool
    var editing: Option<Draft>

    /** The modal is open exactly while a draft is being edited. */
    predicate Valid()
      reads this
    {
      modalOpen == editing.Some?
    }

    constructor (initialProjects: seq<Project>)
      ensures Valid()
      ensures projects == initialProjects && !modalOpen && editing == None
    {
      projects := initialProjects;
      modalOpen := false;
      editing := None;
    }

    /** `openAddModal`. */
    method OpenAdd()
      requires Valid()
      modifies this
      ensures Valid()
      ensures projects == old(projects) && modalOpen && editing == Some(EmptyDraft)
    {
      editing := Some(EmptyDraft);
      modalOpen := true;
    }

    /** `openEditModal`. */
    method OpenEdit(p: Project)
      requires Valid()
      modifies this
      ensures Valid()
      ensures projects == old(projects) && modalOpen && editing == Some(DraftOf(p))
    {
      editing := Some(DraftOf(p));
      modalOpen := true;
    }

    /** `closeModal`. */
    method Close()
      requires Valid()
      modifies this
      ensures Valid()
      ensures projects == old(projects) && !modalOpen && editing == None
    {
      modalOpen := false;
      editing := None;
    }

    /** `handleTitleChange`: a slug already typed is kept; an empty one follows the title. */
    method TitleChange(title: string)
      requires Valid()
      modifies this
      ensures Valid()
      ensures old(editing).None? ==> unchanged(this)
      ensures old(editing).Some? ==>
        editing == Some(old(editing).value.(title := title, slug := SlugAfterTitleChange(old(editing).value.slug, title)))
      ensures projects == old(projects) && modalOpen == old(modalOpen)
    {
      if editing.Some? {
        var d := editing.value;
        editing := Some(d.(title := title, slug := SlugAfterTitleChange(d.slug, title)));
      }
    }

    /** Typing in the slug field; the field exists only while a draft is edited. */
    method SlugChange(slug: string)
      requires Valid() && modalOpen
      modifies this
      ensures Valid()
      ensures editing == Some(old(editing).value.(slug := slug))
      ensures projects == old(projects) && modalOpen == old(modalOpen)
    {
      editing := Some(editing.value.(slug := slug));
    }

    /** The technologies text area: one technology per non-blank line. */
    method TechnologiesChange(text: string)
      requires Valid() && modalOpen
      modifies this
      ensures Valid()
      ensures editing == Some(old(editing).value.(technologies := Lines(text)))
      ensures projects == old(projects) && modalOpen == old(modalOpen)
    {
      editing := Some(editing.value.(technologies := Lines(text)));
    }

    /**
     * `handleSave`: sends the `SaveRequest` for the draft, and on a successful reply puts
     * the saved project in the list (in place of every entry with its id when editing, at
     * the end when creating) and closes the modal. Nothing changes otherwise.
     */
    method Save(reply: Reply<Project>) returns (request: Option<Request<Draft>>)
      requires Valid()
      modifies this
      ensures Valid()
      ensures request == if old(editing).Some? then Sent(old(editing).value) else None
      ensures request.None? || reply.Failed? ==> unchanged(this)
      ensures request.Some? && reply.Saved? && request.value.verb == Put ==>
        projects == MapWhereId(old(projects), IdOf, reply.entity.id, (p: Project) => reply.entity)
      ensures request.Some? && reply.Saved? && request.value.verb == Post ==>
        projects == old(projects) + [reply.entity]
      ensures request.Some? && reply.Saved? ==> !modalOpen && editing == None
    {
      request := if editing.Some? then Sent(editing.value) else None;
      if request.Some? && reply.Saved? {
        if request.value.verb == Put {
          projects := MapWhereId(projects, IdOf, reply.entity.id, (p: Project) => reply.entity);
        } else {
          projects := projects + [reply.entity];
        }
        Close();
      }
    }

    /** `togglePublished`: once the PUT resolves, every entry with that id takes the new flag. */
    method TogglePublished(id: string, published: bool, resolved: bool)
      requires Valid()
      modifies this
      ensures Valid()
      ensures !resolved ==> unchanged(this)
      ensures resolved ==> projects == MapWhereId(old(projects), IdOf, id, (p: Project) => p.(published := published))
      ensures modalOpen == old(modalOpen) && editing == old(editing)
    {
      if resolved {
        projects := MapWhereId(projects, IdOf, id, (p: Project) => p.(published := published));
      }
    }

    /** `toggleFeatured`: once the PUT resolves, every entry with that id takes the new flag. */
    method ToggleFeatured(id: string, featured: bool, resolved: bool)
      requires Valid()
      modifies this
      ensures Valid()
      ensures !resolved ==> unchanged(this)
      ensures resolved ==> projects == MapWhereId(old(projects), IdOf, id, (p: Project) => p.(featured := featured))
      ensures modalOpen == old(modalOpen) && editing == old(editing)
    {
      if resolved {
        projects := MapWhereId(projects, IdOf, id, (p: Project) => p.(featured := featured));
      }
    }

    /** `deleteProject`: asks first; once the DELETE resolves, the entries with that id leave the list. */
    method Delete(id: string, confirmed: bool, resolved: bool)
      requires Valid()
      modifies this
      ensures Valid()
      ensures !(confirmed && resolved) ==> unchanged(this)
      ensures confirmed && resolved ==> projects == RemoveId(old(projects), IdOf, id)
      ensures modalOpen == old(modalOpen) && editing == old(editing)
    {
      if confirmed && resolved {
        projects := RemoveId(projects, IdOf, id);
      }
    }
  }
}
