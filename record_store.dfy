/**
 * The flat JSON stores behind the article, content and publication services.
 * Each store is one file holding a JSON array of records; every operation
 * reads the whole array (an unreadable file reads as the empty array),
 * changes the array in place and writes it back. The file is the `file`
 * field of a `Store`; whether a write succeeds is an input (`writeOk`).
 */
module RecordStore {
  import opened Wrappers
  import opened Seqs

  /** A JSON value as `JSON.parse` produces it. */
  datatype Json =
    | JNull
    | JBool(b: bool)
    | JNum(n: int)
    | JStr(s: string)
    | JArr(items: seq<Json>)
    | JObj(fields: map<string, Json>)

  /** One element of a store's array: an object, by field name. */
  type Record = map<string, Json>

  /** What the store file holds: a parsed array, or something `readFileSync`/`JSON.parse` rejects. */
  datatype FileState = Readable(records: seq<Record>) | Unreadable

  /** `Error("<Entity> with id <id> not found")`, or the exception a failed write rethrows. */
  datatype StoreError = NotFound(message: string) | WriteFailed

  /** The read helper: an unreadable file is the empty array. */
  function ReadAll(f: FileState): seq<Record> {
    if f.Readable? then f.records else []
  }

  /** `record.<keyField> === id`, for a string id. */
  predicate Matches(r: Record, keyField: string, id: string) {
    keyField in r && r[keyField] == JStr(id)
  }

  /** `findIndex`: the first matching position, -1 when none matches. */
  function FindIndex(rs: seq<Record>, keyField: string, id: string): (i: int)
    ensures -1 <= i < |rs|
    ensures i == -1 <==> forall j :: 0 <= j < |rs| ==> !Matches(rs[j], keyField, id)
    ensures i >= 0 ==> Matches(rs[i], keyField, id) && forall j :: 0 <= j < i ==> !Matches(rs[j], keyField, id)
  {
    if rs == [] then -1
    else if Matches(rs[0], keyField, id) then 0
    else
      var k := FindIndex(rs[1..], keyField, id);
      if k == -1 then -1 else k + 1
  }

  /** `{ ...current, ...patch }`: a shallow merge where the patch's fields win. */
  function Merge(current: Record, patch: Record): (m: Record)
    ensures m.Keys == current.Keys + patch.Keys
    ensures forall k :: k in patch ==> m[k] == patch[k]
    ensures forall k :: k in current && k !in patch ==> m[k] == current[k]
  {
    current + patch
  }

  /** How many records match; the stores never enforce that this is at most one. */
  function CountMatches(rs: seq<Record>, keyField: string, id: string): nat {
    if rs == [] then 0
    else (if Matches(rs[0], keyField, id) then 1 else 0) + CountMatches(rs[1..], keyField, id)
  }

  /** The "not found" message. */
  function NotFoundMessage(entity: string, id: string): string {
    entity + " with id " + id + " not found"
  }

  // ---------------------------------------------------------------------------
  // Properties of the array operations

  /** Appending keeps every earlier element and its position, and adds exactly one copy of the record. */
  lemma {:induction false} AppendAddsOne(rs: seq<Record>, data: Record, keyField: string, id: string)
    ensures |rs + [data]| == |rs| + 1 && (rs + [data])[..|rs|] == rs && (rs + [data])[|rs|] == data
    ensures CountMatches(rs + [data], keyField, id)
            == CountMatches(rs, keyField, id) + (if Matches(data, keyField, id) then 1 else 0)
  {
    if rs != [] {
      assert (rs + [data])[1..] == rs[1..] + [data];
      AppendAddsOne(rs[1..], data, keyField, id);
    }
  }

  /**
   * There is no duplicate check: after appending, a lookup by the new
   * record's id finds the new record only when no earlier record had that id;
   * otherwise it still finds the earlier one.
   */
  lemma {:induction false} LookupAfterAppend(rs: seq<Record>, data: Record, keyField: string, id: string)
    ensures FindIndex(rs + [data], keyField, id)
            == if FindIndex(rs, keyField, id) != -1 then FindIndex(rs, keyField, id)
               else if Matches(data, keyField, id) then |rs| else -1
  {
    if rs != [] {
      assert (rs + [data])[1..] == rs[1..] + [data];
      LookupAfterAppend(rs[1..], data, keyField, id);
    }
  }

  /** Deleting the first match removes exactly one matching record; later duplicates remain. */
  lemma {:induction false} RemoveFirstMatchCount(rs: seq<Record>, keyField: string, id: string)
    requires FindIndex(rs, keyField, id) != -1
    ensures CountMatches(RemoveAt(rs, FindIndex(rs, keyField, id)), keyField, id)
            == CountMatches(rs, keyField, id) - 1
  {
    if !Matches(rs[0], keyField, id) {
      var i := FindIndex(rs, keyField, id);
      RemoveFirstMatchCount(rs[1..], keyField, id);
      assert RemoveAt(rs, i)[1..] == RemoveAt(rs[1..], i - 1);
    } else {
      assert RemoveAt(rs, 0) == rs[1..];
    }
  }

  /** Replacing one position changes that position only. */
  lemma UpdateAtKeepsOthers(rs: seq<Record>, i: nat, r: Record)
    requires i < |rs|
    ensures |rs[i := r]| == |rs| && rs[i := r][i] == r
    ensures forall j :: 0 <= j < |rs| && j != i ==> rs[i := r][j] == rs[j]
  {
  }

  /**
   * A merge whose patch leaves the key field alone keeps the record under
   * its id, so an update followed by a lookup finds the updated record at the
   * same position.
   */
  lemma UpdateKeepsLookup(rs: seq<Record>, keyField: string, id: string, patch: Record)
    requires FindIndex(rs, keyField, id) != -1 && keyField !in patch
    ensures var i := FindIndex(rs, keyField, id);
            FindIndex(rs[i := Merge(rs[i], patch)], keyField, id) == i
  {
    var i := FindIndex(rs, keyField, id);
    var rs' := rs[i := Merge(rs[i], patch)];
    assert Matches(rs'[i], keyField, id);
    assert forall j :: 0 <= j < i ==> rs'[j] == rs[j];
  }

  /** One JSON-file store: its key field, the entity name in its messages, and the file. */
  class Store {
    const keyField: string
    const entity: string
    var file: FileState

    constructor (keyField: string, entity: string, file: FileState)
      ensures this.keyField == keyField && this.entity == entity && this.file == file
    {
      this.keyField := keyField;
      this.entity := entity;
      this.file := file;
    }

    /** The array every operation starts from. */
    function Records(): seq<Record>
      reads this
    {
      ReadAll(file)
    }

    /** `getAll…`: the whole array, or [] when the file cannot be read. */
    method GetAll() returns (rs: seq<Record>)
      ensures rs == ReadAll(file)
    {
      rs := if file.Readable? then file.records else [];
    }

    /** `get…ById`: the first record with the id, else a not-found error. */
    method GetById(id: string) returns (r: Result<Record, StoreError>)
      ensures r.Ok? <==> exists j :: 0 <= j < |Records()| && Matches(Records()[j], keyField, id)
      ensures r.Ok? ==> r.value == Records()[FindIndex(Records(), keyField, id)]
      ensures r.Err? ==> r.error == NotFound(NotFoundMessage(entity, id))
    {
      var rs := GetAll();
      var i := FindIndex(rs, keyField, id);
      if i == -1 {
        return Err(NotFound(NotFoundMessage(entity, id)));
      }
      assert Matches(Records()[i], keyField, id);
      return Ok(rs[i]);
    }

    /** `create…`: push, write back, return the input. */
    method Create(data: Record, writeOk: bool) returns (r: Result<Record, StoreError>)
      modifies this
      ensures writeOk ==> r == Ok(data) && file == Readable(old(Records()) + [data])
      ensures !writeOk ==> r == Err(WriteFailed) && file == old(file)
    {
      var rs := GetAll();
      rs := rs + [data];
      if !writeOk {
        return Err(WriteFailed);
      }
      file := Readable(rs);
      return Ok(data);
    }

    /** `update…`: merge the patch into the first match in place, write back, return the merged record. */
    method Update(id: string, patch: Record, writeOk: bool) returns (r: Result<Record, StoreError>)
      modifies this
      ensures var rs := old(Records());
              var i := FindIndex(rs, keyField, id);
              && (i == -1 ==> r == Err(NotFound(NotFoundMessage(entity, id))) && file == old(file))
              && (i != -1 && !writeOk ==> r == Err(WriteFailed) && file == old(file))
              && (i != -1 && writeOk ==> r == Ok(Merge(rs[i], patch)) && file == Readable(rs[i := Merge(rs[i], patch)]))
    {
      var rs := GetAll();
      var i := FindIndex(rs, keyField, id);
      if i == -1 {
        return Err(NotFound(NotFoundMessage(entity, id)));
      }
      rs := rs[i := rs[i] + patch];
      if !writeOk {
        return Err(WriteFailed);
      }
      file := Readable(rs);
      return Ok(rs[i]);
    }

    /** `delete…`: splice out the first match, write back, return the removed record. */
    method Delete(id: string, writeOk: bool) returns (r: Result<Record, StoreError>)
      modifies this
      ensures var rs := old(Records());
              var i := FindIndex(rs, keyField, id);
              && (i == -1 ==> r == Err(NotFound(NotFoundMessage(entity, id))) && file == old(file))
              && (i != -1 && !writeOk ==> r == Err(WriteFailed) && file == old(file))
              && (i != -1 && writeOk ==> r == Ok(rs[i]) && file == Readable(RemoveAt(rs, i)))
    {
      var rs := GetAll();
      var i := FindIndex(rs, keyField, id);
      if i == -1 {
        return Err(NotFound(NotFoundMessage(entity, id)));
      }
      var deleted := rs[i];
      rs := rs[..i] + rs[i + 1..];
      if !writeOk {
        return Err(WriteFailed);
      }
      file := Readable(rs);
      return Ok(deleted);
    }
  }
}

/** `server/features/article/ArticleService.js`: the store of `articlesContents.json`, keyed by `id_article`. */
module ArticleService {
  import opened RecordStore

  const KeyField: string := "id_article"
  const Entity: string := "Article"

  /** The service over the articles file as it currently is. */
  method Open(file: FileState) returns (s: Store)
    ensures fresh(s) && s.keyField == KeyField && s.entity == Entity && s.file == file
  {
    s := new Store(KeyField, Entity, file);
  }
}

/** `server/features/content/ContentService.js`: the store of `contentsContents.json`, keyed by `content_id`. */
module ContentService {
  import opened RecordStore

  const KeyField: string := "content_id"
  const Entity: string := "Content"

  /** The service over the contents file as it currently is. */
  method Open(file: FileState) returns (s: Store)
    ensures fresh(s) && s.keyField == KeyField && s.entity == Entity && s.file == file
  {
    s := new Store(KeyField, Entity, file);
  }
}

/** `server/features/publication/PublicationService.js`: the store of `publicationsContents.json`, keyed by `id_publication`. */
module PublicationService {
  import opened RecordStore

  const KeyField: string := "id_publication"
  const Entity: string := "Publication"

  /** The service over the publications file as it currently is. */
  method Open(file: FileState) returns (s: Store)
    ensures fresh(s) && s.keyField == KeyField && s.entity == Entity && s.file == file
  {
    s := new Store(KeyField, Entity, file);
  }
}
