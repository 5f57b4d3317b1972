/**
 * `converter_from_datum_object_t`: reads the fields of an object datum one
 * by one and keeps the set of keys nobody has asked for, so that unexpected
 * keys can be reported at the end.
 */
module ObjectConverter {
  import opened Wrappers
  import opened DatumAdapter

  /** The loop of `init` that adds the object's keys one at a time to `extra_keys`. */
  method AddKeys(extra: set<string>, keys: set<string>) returns (r: set<string>)
    ensures r == extra + keys
  {
    r := extra;
    var todo := keys;
    while todo != {}
      invariant todo <= keys
      invariant r == extra + (keys - todo)
      decreases |todo|
    {
      var key :| key in todo;
      r, todo := r + {key}, todo - {key};
    }
  }

  class Converter {
    /** The fields of the datum given to `init`. */
    var fields: map<string, Datum>
    var initialised: bool
    /** `extra_keys`: keys of the object not yet asked for. */
    var extraKeys: set<string>
    /** The keys passed to `get` or `get_optional` since `init`. */
    ghost var requested: set<string>

    /** Every key of the object is either requested or still extra, and nothing else is extra. */
    ghost predicate Valid()
      reads this
    {
      extraKeys == fields.Keys - requested
    }

    constructor ()
      ensures !initialised && fields == map[] && extraKeys == {} && requested == {}
      ensures Valid()
    {
      fields, initialised, extraKeys := map[], false, {};
      requested := {};
    }

    /** `init`: refuse a non-object; otherwise keep its fields and add every key to `extra_keys`. */
    method Init(d: Datum) returns (r: Result<(), AdminError>)
      modifies this
      ensures r.Failure? <==> !d.Obj?
      ensures r.Failure? ==> r.error == Expected("object", d) && unchanged(this)
      ensures r.Success? ==> initialised && fields == d.fields && extraKeys == old(extraKeys) + d.fields.Keys
                             && requested == {}
      ensures r.Success? && old(extraKeys) == {} ==> Valid()
    {
      if !d.Obj? {
        return Failure(Expected("object", d));
      }
      var keys := AddKeys(extraKeys, d.fields.Keys);
      fields, initialised, extraKeys := d.fields, true, keys;
      requested := {};
      return Success(());
    }

    /** `get`: the key stops being extra whether or not the object has it; a missing field is an error. */
    method Get(key: string) returns (r: Result<Datum, AdminError>)
      requires initialised
      modifies this`extraKeys, this`requested
      ensures extraKeys == old(extraKeys) - {key} && requested == old(requested) + {key}
      ensures r == if key in fields then Success(fields[key]) else Failure(MissingField(key))
      ensures old(Valid()) ==> Valid()
    {
      extraKeys := extraKeys - {key};
      requested := requested + {key};
      if key !in fields {
        return Failure(MissingField(key));
      }
      return Success(fields[key]);
    }

    /** `get_optional`: as `get`, but a missing field is just absent. */
    method GetOptional(key: string) returns (r: Option<Datum>)
      requires initialised
      modifies this`extraKeys, this`requested
      ensures extraKeys == old(extraKeys) - {key} && requested == old(requested) + {key}
      ensures r == if key in fields then Some(fields[key]) else None
      ensures old(Valid()) ==> Valid()
    {
      extraKeys := extraKeys - {key};
      requested := requested + {key};
      r := if key in fields then Some(fields[key]) else None;
    }

    /** `has`: whether the object has the field; the extra keys are left alone. */
    method Has(key: string) returns (b: bool)
      requires initialised
      ensures b <==> key in fields
    {
      b := key in fields;
    }

    /**
     * `check_no_extra_keys`: succeeds exactly when no key is left over, and
     * otherwise lists each leftover key once.
     */
    method CheckNoExtraKeys() returns (r: Result<(), AdminError>)
      ensures r.Success? <==> extraKeys == {}
      ensures r.Failure? ==> r.error.UnexpectedKeys? && |r.error.keys| == |extraKeys|
                             && forall k :: k in extraKeys <==> k in r.error.keys
      ensures Valid() ==> (r.Success? <==> fields.Keys <= requested)
    {
      if Valid() && !(fields.Keys <= requested) {
        var k :| k in fields.Keys && k !in requested;
        assert k in extraKeys;
      }
      if extraKeys == {} {
        return Success(());
      }
      var listed: seq<string> := [];
      var todo := extraKeys;
      while todo != {}
        invariant todo <= extraKeys
        invariant forall k :: k in extraKeys <==> k in todo || k in listed
        invariant forall k :: k in todo ==> k !in listed
        invariant |listed| + |todo| == |extraKeys|
        decreases |todo|
      {
        var key :| key in todo;
        listed := listed + [key];
        todo := todo - {key};
      }
      return Failure(UnexpectedKeys(listed));
    }
  }
}
