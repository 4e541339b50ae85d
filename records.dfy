/**
 * Values shared by every part of the model: the fields of a stored row,
 * optional results and the error outcomes the controllers raise.
 */
module Records {

  /** A column value. Ids lists carry the attachable selections (productIds, menuIds). */
  datatype Value = Str(s: string) | Int(i: int) | Real(r: real) | Ids(ids: seq<nat>)

  /** A row or a request payload: field name to value. */
  type Record = map<string, Value>

  datatype Option<+T> = None | Some(value: T)

  /** The failures the controllers and the access layer report. */
  datatype Error = NotFound | Unauthorized | Forbidden | LoginFailed | LogoutFailed | ConstraintViolation

  datatype Result<+T> = Ok(value: T) | Err(error: Error)

  /** `rec` agrees with `criteria` on every field the criteria name (a `where` clause). */
  predicate Matches(rec: Record, criteria: Record)
  {
    forall k :: k in criteria ==> k in rec && rec[k] == criteria[k]
  }

  /** The one-field criteria `{name: value}`. */
  function Where(name: string, value: Value): (c: Record)
    ensures c.Keys == {name} && c[name] == value
  {
    map[name := value]
  }

  /** `data` as stored under primary key `id`: the supplied fields plus `id`. */
  function WithId(data: Record, id: nat): (r: Record)
    ensures r.Keys == data.Keys + {"id"}
    ensures r["id"] == Int(id)
    ensures forall k :: k in data && k != "id" ==> r[k] == data[k]
  {
    data["id" := Int(id)]
  }
}
