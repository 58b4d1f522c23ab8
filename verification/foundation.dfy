/**
 Basic vocabulary shared by every module of the model: optional values,
 document identifiers, request field bags, and the least/greatest element
 of a finite set of identifiers.
 */
module Foundation {

  /** A value that may be absent (`undefined` / `null` in the original). */
  datatype Option<+T> = None | Some(value: T) {
    function GetOr(default: T): T {
      match this
      case Some(v) => v
      case None => default
    }
  }

  /** The outcome of a step that can fail with an error of type `E`. */
  datatype Result<+T, +E> = Ok(value: T) | Err(error: E)

  /** A MongoDB ObjectId, abstracted as a natural number: only equality
      of ids matters to the code, and the order on numbers is used only
      where the model has to pick one id among several. Its textual (hex)
      form is an external collaborator (see Collaborators.Env.idText). */
  type Id = nat

  /** A JSON request body or a parsed query string: a key is absent
      exactly when the original reads `undefined` for it. Only string
      values are modelled. */
  type Fields = map<string, string>

  function Get(fields: Fields, key: string): (r: Option<string>)
    ensures r.Some? <==> key in fields
    ensures r.Some? ==> r.value == fields[key]
  {
    if key in fields then Some(fields[key]) else None
  }

  /** JavaScript truthiness of a string-or-undefined value: `undefined`
      and the empty string are falsy, every other string is truthy. */
  predicate Truthy(v: Option<string>) {
    v.Some? && v.value != ""
  }

  /** JavaScript `v !== undefined`. */
  predicate Defined(v: Option<string>) {
    v.Some?
  }

  predicate IsLeast(s: set<Id>, r: Id) {
    r in s && forall x :: x in s ==> r <= x
  }

  predicate IsGreatest(s: set<Id>, r: Id) {
    r in s && forall x :: x in s ==> x <= r
  }

  lemma {:induction false} LeastExists(s: set<Id>)
    requires s != {}
    ensures exists r :: IsLeast(s, r)
    decreases s
  {
    var y :| y in s;
    if s == {y} {
      assert IsLeast(s, y);
    } else {
      LeastExists(s - {y});
      var r' :| IsLeast(s - {y}, r');
      if y < r' {
        assert IsLeast(s, y) by {
          forall x | x in s ensures y <= x {
            if x != y { assert x in s - {y}; }
          }
        }
      } else {
        assert IsLeast(s, r') by {
          forall x | x in s ensures r' <= x {
            if x != y { assert x in s - {y}; }
          }
        }
      }
    }
  }

  /** The smallest identifier of a non-empty set. */
  function Least(s: set<Id>): (r: Id)
    requires s != {}
    ensures r in s
    ensures forall x :: x in s ==> r <= x
  {
    LeastExists(s);
    var r: Id :| IsLeast(s, r);
    r
  }

  lemma {:induction false} GreatestExists(s: set<Id>)
    requires s != {}
    ensures exists r :: IsGreatest(s, r)
    decreases s
  {
    var y :| y in s;
    if s == {y} {
      assert IsGreatest(s, y);
    } else {
      GreatestExists(s - {y});
      var r' :| IsGreatest(s - {y}, r');
      if r' < y {
        assert IsGreatest(s, y) by {
          forall x | x in s ensures x <= y {
            if x != y { assert x in s - {y}; }
          }
        }
      } else {
        assert IsGreatest(s, r') by {
          forall x | x in s ensures x <= r' {
            if x != y { assert x in s - {y}; }
          }
        }
      }
    }
  }

  /** An identifier that no document of the collection uses yet. Taking
      one past the greatest is a modelling choice that makes the pick
      deterministic; real ObjectIds (timestamp, per-process random part,
      counter) need not grow across processes. */
  function FreshId(ids: set<Id>): (r: Id)
    ensures r !in ids
    ensures forall x :: x in ids ==> x < r
  {
    if ids == {} then 0
    else
      GreatestExists(ids);
      var g: Id :| IsGreatest(ids, g);
      g + 1
  }
}
