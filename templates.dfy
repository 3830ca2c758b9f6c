/**
 * The template store (`TemplateServiceImpl`): create, get, list, update and
 * delete templates kept by id in a `TemplateRepository`.
 */
module Templates {
  import opened Wrappers
  import opened Entity
  import opened Errors

  /** `CreateTemplateRequest`. */
  datatype TemplateRequest = TemplateRequest(name: string, subject: string, body: string)

  /** One row of the `templates` table. */
  datatype TemplateRow = TemplateRow(id: Option<Id>, name: string, subject: string, body: string)

  /** The `Template` entity. */
  class Template {
    var id: Option<Id>
    var name: string
    var subject: string
    var body: string

    function Row(): TemplateRow
      reads this
    {
      TemplateRow(id, name, subject, body)
    }

    /** `Template.builder()...build()`, or a load from a stored row. */
    constructor (row: TemplateRow)
      ensures Row() == row
    {
      id := row.id;
      name := row.name;
      subject := row.subject;
      body := row.body;
    }
  }

  class TemplateRepository {
    var rows: map<Id, TemplateRow>
    /** The id the next insert is given; ids are never reused. */
    var nextId: nat
    /** Every row written by `save`, in order. */
    var writes: seq<TemplateRow>
    /** Every id passed to `deleteById`, in order. */
    var deletions: seq<Id>

    ghost predicate Valid()
      reads this
    {
      forall id :: id in rows ==> id < nextId && rows[id].id == Some(id)
    }

    constructor ()
      ensures Valid() && rows == map[] && nextId == 0 && writes == [] && deletions == []
    {
      rows := map[];
      nextId := 0;
      writes := [];
      deletions := [];
    }

    /** `save(t)`: insert under a fresh id when `t` has none, otherwise merge over its row. */
    method Save(t: Template)
      requires Valid()
      requires t.id.Some? ==> t.id.value in rows
      modifies this, t
      ensures Valid() && deletions == old(deletions)
      ensures old(t.id).None? ==>
        t.Row() == old(t.Row()).(id := Some(old(nextId))) && old(nextId) !in old(rows) && nextId == old(nextId) + 1
      ensures old(t.id).Some? ==> t.Row() == old(t.Row()) && nextId == old(nextId)
      ensures t.id.Some? && rows == old(rows)[t.id.value := t.Row()]
      ensures writes == old(writes) + [t.Row()]
    {
      if t.id.None? {
        t.id := Some(nextId);
        nextId := nextId + 1;
      }
      rows := rows[t.id.value := t.Row()];
      writes := writes + [t.Row()];
    }

    /** `deleteById(id)`. */
    method DeleteById(id: Id)
      requires Valid()
      modifies this
      ensures Valid()
      ensures rows == old(rows) - {id} && deletions == old(deletions) + [id]
      ensures writes == old(writes) && nextId == old(nextId)
    {
      rows := rows - {id};
      deletions := deletions + [id];
    }
  }

  class TemplateService {
    const repo: TemplateRepository

    constructor (repo: TemplateRepository)
      ensures this.repo == repo
    {
      this.repo := repo;
    }

    /** `createTemplate(request)`: one save of a new template carrying the request's fields. */
    method CreateTemplate(req: TemplateRequest) returns (t: Template)
      requires repo.Valid()
      modifies repo
      ensures repo.Valid() && fresh(t)
      ensures var id := old(repo.nextId);
        && id !in old(repo.rows)
        && t.Row() == TemplateRow(Some(id), req.name, req.subject, req.body)
        && repo.rows == old(repo.rows)[id := t.Row()]
        && repo.writes == old(repo.writes) + [t.Row()]
        && repo.deletions == old(repo.deletions)
    {
      t := new Template(TemplateRow(None, req.name, req.subject, req.body));
      repo.Save(t);
    }

    /** `getTemplateById(id)`: the stored template, or EntityNotFoundException. */
    function GetTemplateById(id: Id): (result: Result<TemplateRow, ServiceError>)
      reads repo
      requires repo.Valid()
      ensures result.Success? <==> id in repo.rows
      ensures result.Success? ==> result.value == repo.rows[id] && result.value.id == Some(id)
      ensures result.Failure? ==> result.error == EntityNotFound(id)
    {
      if id in repo.rows then Success(repo.rows[id]) else Failure(EntityNotFound(id))
    }

    /** `getAllTemplates()`: every stored template once (list order is not modelled). */
    function GetAllTemplates(): (all: set<TemplateRow>)
      reads repo
      requires repo.Valid()
      ensures forall id :: id in repo.rows ==> repo.rows[id] in all
      ensures forall t :: t in all ==> t.id.Some? && t.id.value in repo.rows && repo.rows[t.id.value] == t
    {
      set id | id in repo.rows :: repo.rows[id]
    }

    /**
     * `updateTemplate(id, request)`: name, subject and body are replaced and
     * the id kept, with one save; a missing id throws and nothing is saved.
     */
    method UpdateTemplate(id: Id, req: TemplateRequest) returns (result: Result<TemplateRow, ServiceError>)
      requires repo.Valid()
      modifies repo
      ensures repo.Valid() && repo.nextId == old(repo.nextId) && repo.deletions == old(repo.deletions)
      ensures id !in old(repo.rows) ==>
        result == Failure(EntityNotFound(id)) && repo.rows == old(repo.rows) && repo.writes == old(repo.writes)
      ensures id in old(repo.rows) ==>
        var updated := TemplateRow(Some(id), req.name, req.subject, req.body);
        && result == Success(updated)
        && repo.rows == old(repo.rows)[id := updated]
        && repo.writes == old(repo.writes) + [updated]
    {
      var found := GetTemplateById(id);
      if found.Failure? {
        return Failure(found.error);
      }
      var template := new Template(found.value);
      template.name := req.name;
      template.subject := req.subject;
      template.body := req.body;
      repo.Save(template);
      result := Success(template.Row());
    }

    /**
     * `deleteTemplate(id)`: an existing template is removed; a missing id
     * throws and deleteById is never called.
     */
    method DeleteTemplate(id: Id) returns (result: Result<(), ServiceError>)
      requires repo.Valid()
      modifies repo
      ensures repo.Valid() && repo.writes == old(repo.writes) && repo.nextId == old(repo.nextId)
      ensures id in old(repo.rows) ==>
        result == Success(()) && repo.rows == old(repo.rows) - {id} && repo.deletions == old(repo.deletions) + [id]
      ensures id !in old(repo.rows) ==>
        result == Failure(EntityNotFound(id)) && repo.rows == old(repo.rows) && repo.deletions == old(repo.deletions)
    {
      if id !in repo.rows {
        return Failure(EntityNotFound(id));
      }
      repo.DeleteById(id);
      result := Success(());
    }
  }
}
