// Configuration access: dot-separated key paths over the nested dictionary
// loaded from YAML, and the ordered validation run at construction. YAML
// parsing is not modelled: the loaded document is the constructor's argument.

module Config {
  import opened Common
  import opened Strings

  /** A YAML value as the loader produces it (floats not modelled). */
  datatype Value =
    | Null
    | Bool(b: bool)
    | Int(i: int)
    | Str(s: string)
    | List(items: seq<Value>)
    | Dict(fields: map<string, Value>)

  /** Python truthiness. */
  predicate Falsy(v: Value)
  {
    match v
    case Null => true
    case Bool(b) => !b
    case Int(i) => i == 0
    case Str(s) => s == []
    case List(items) => items == []
    case Dict(fields) => fields == map[]
  }

  /** The walk of `get`: descend while the current value is a dictionary holding the next segment. */
  function Lookup(v: Value, keys: seq<string>): (r: Option<Value>)
    ensures keys == [] ==> r == Some(v)
    ensures keys != [] && !(v.Dict? && keys[0] in v.fields) ==> r == None
    decreases |keys|
  {
    if keys == [] then Some(v)
    else if v.Dict? && keys[0] in v.fields then Lookup(v.fields[keys[0]], keys[1..])
    else None
  }

  /** Looking up a concatenated path is looking up its two halves in turn. */
  lemma {:induction false} LookupAppend(v: Value, p: seq<string>, q: seq<string>)
    ensures Lookup(v, p + q) == if Lookup(v, p).Some? then Lookup(Lookup(v, p).value, q) else None
    decreases |p|
  {
    if p == [] {
      assert p + q == q;
    } else if v.Dict? && p[0] in v.fields {
      assert (p + q)[1..] == p[1..] + q;
      LookupAppend(v.fields[p[0]], p[1..], q);
    } else {
    }
  }

  /** `get(key, default)`. */
  function Get(config: map<string, Value>, key: string, default: Value): (r: Value)
    ensures Lookup(Dict(config), Split(key, '.')).Some? ==> r == Lookup(Dict(config), Split(key, '.')).value
    ensures Lookup(Dict(config), Split(key, '.')).None? ==> r == default
  {
    match Lookup(Dict(config), Split(key, '.'))
    case Some(found) => found
    case None => default
  }

  /** The segments of `keys` other than the last can all be walked by `set`
      without meeting a value that is not a dictionary. */
  predicate PathWritable(m: map<string, Value>, keys: seq<string>)
    requires |keys| >= 1
    decreases |keys|
  {
    |keys| == 1 || keys[0] !in m || (m[keys[0]].Dict? && PathWritable(m[keys[0]].fields, keys[1..]))
  }

  /** The effect of `set` on the dictionary: a missing intermediate segment
      becomes an empty dictionary, the last segment is bound to `v`, and an
      intermediate that is not a dictionary raises TypeError (`None`). */
  function SetIn(m: map<string, Value>, keys: seq<string>, v: Value): (r: Option<map<string, Value>>)
    requires |keys| >= 1
    ensures r.Some? <==> PathWritable(m, keys)
    ensures r.Some? ==> r.value.Keys == m.Keys + {keys[0]}
    decreases |keys|
  {
    if |keys| == 1 then Some(m[keys[0] := v])
    else
      var inner := if keys[0] in m then m[keys[0]] else Dict(map[]);
      if !inner.Dict? then None
      else match SetIn(inner.fields, keys[1..], v)
        case Some(updated) => Some(m[keys[0] := Dict(updated)])
        case None => None
  }

  /** After a `set`, a path that runs through the written key reads inside the new value. */
  lemma {:induction false} SetInExtension(m: map<string, Value>, keys: seq<string>, v: Value, q: seq<string>)
    requires |keys| >= 1 && PathWritable(m, keys)
    ensures Lookup(Dict(SetIn(m, keys, v).value), keys + q) == Lookup(v, q)
    decreases |keys|
  {
    var m' := SetIn(m, keys, v).value;
    assert (keys + q)[0] == keys[0] && (keys + q)[1..] == keys[1..] + q;
    if |keys| == 1 {
      assert keys[1..] + q == q;
    } else {
      var inner := if keys[0] in m then m[keys[0]] else Dict(map[]);
      SetInExtension(inner.fields, keys[1..], v, q);
    }
  }

  /** Round trip: what `set` binds is what the same path reads back. */
  lemma SetInThenLookup(m: map<string, Value>, keys: seq<string>, v: Value)
    requires |keys| >= 1 && PathWritable(m, keys)
    ensures Lookup(Dict(SetIn(m, keys, v).value), keys) == Some(v)
  {
    SetInExtension(m, keys, v, []);
    assert keys + [] == keys;
  }

  /** Two key paths part ways: some segment they both have differs. */
  predicate Diverge(p: seq<string>, q: seq<string>)
  {
    exists i :: 0 <= i < |p| && i < |q| && p[i] != q[i]
  }

  /** A path that is neither a prefix nor an extension of the written one reads as before. */
  lemma {:induction false} SetInFrame(m: map<string, Value>, keys: seq<string>, v: Value, p: seq<string>)
    requires |keys| >= 1 && PathWritable(m, keys) && Diverge(p, keys)
    ensures Lookup(Dict(SetIn(m, keys, v).value), p) == Lookup(Dict(m), p)
    decreases |keys|
  {
    var m' := SetIn(m, keys, v).value;
    var i :| 0 <= i < |p| && i < |keys| && p[i] != keys[i];
    if p[0] != keys[0] {
      assert p[0] in m' <==> p[0] in m;
      if p[0] in m {
        assert m'[p[0]] == m[p[0]];
      }
    } else {
      assert i >= 1 && |keys| >= 2;
      assert p[1..][i - 1] != keys[1..][i - 1];
      var inner := if keys[0] in m then m[keys[0]] else Dict(map[]);
      SetInFrame(inner.fields, keys[1..], v, p[1..]);
      if keys[0] !in m {
        assert Lookup(Dict(map[]), p[1..]) == None;
      }
    }
  }

  /** The walk of `get` along the first `i` segments meets a value that is not a dictionary. */
  predicate BlockedAt(m: map<string, Value>, keys: seq<string>, i: nat)
    requires i <= |keys|
  {
    Lookup(Dict(m), keys[..i]).Some? && !Lookup(Dict(m), keys[..i]).value.Dict?
  }

  /** `set` raises exactly when some proper prefix of the path leads to a value
      that is not a dictionary. */
  lemma {:induction false} NotWritableIffBlocked(m: map<string, Value>, keys: seq<string>)
    requires |keys| >= 1
    ensures !PathWritable(m, keys) <==> exists i :: 1 <= i < |keys| && BlockedAt(m, keys, i)
    decreases |keys|
  {
    if |keys| == 1 {
    } else if keys[0] !in m {
      forall i | 1 <= i < |keys|
        ensures !BlockedAt(m, keys, i)
      {
        assert keys[..i][0] == keys[0];
      }
    } else {
      var k := keys[0];
      assert keys[..1] == [k];
      assert Lookup(Dict(m), keys[..1]) == Some(m[k]) by {
        assert keys[..1][1..] == [];
      }
      if m[k].Dict? {
        var inner := m[k].fields;
        forall i | 2 <= i <= |keys|
          ensures Lookup(Dict(m), keys[..i]) == Lookup(Dict(inner), keys[1..][..i - 1])
        {
          assert keys[..i][0] == k && keys[..i][1..] == keys[1..][..i - 1];
        }
        NotWritableIffBlocked(inner, keys[1..]);
        if !PathWritable(m, keys) {
          var j :| 1 <= j < |keys[1..]| && BlockedAt(inner, keys[1..], j);
          assert BlockedAt(m, keys, j + 1);
        } else {
          forall i | 1 <= i < |keys|
            ensures !BlockedAt(m, keys, i)
          {
            if i >= 2 {
              assert !BlockedAt(inner, keys[1..], i - 1);
            }
          }
        }
      } else {
        assert BlockedAt(m, keys, 1);
      }
    }
  }

  /** The sections `_validate_config` requires, in the order it checks them. */
  const RequiredSections: seq<string> := ["camera", "capture", "files", "logging", "health"]

  /** Why validation raises: ValueError (the first three), KeyError, TypeError. */
  datatype ConfigError =
    | MissingSection(section: string)
    | DeviceRequired
    | RetryAttemptsTooLow
    | MissingKey(key: string)
    | WrongType

  /** `config[section][key]`: KeyError on a missing key, TypeError on a non-dictionary. */
  function Subscript(section: Value, key: string): (r: Result)
    ensures r.Ok? <==> section.Dict? && key in section.fields
    ensures r.Ok? ==> r.value == section.fields[key]
    ensures !section.Dict? ==> r == Err(WrongType)
    ensures section.Dict? && key !in section.fields ==> r == Err(MissingKey(key))
  {
    if !section.Dict? then Err(WrongType)
    else if key !in section.fields then Err(MissingKey(key))
    else Ok(section.fields[key])
  }

  datatype Result = Ok(value: Value) | Err(error: ConfigError)

  /** `x < 1` for the values where Python defines it (booleans count as 0 and 1). */
  function BelowOne(v: Value): (r: Option<bool>)
    ensures r.Some? <==> v.Int? || v.Bool?
    ensures v.Int? ==> r == Some(v.i < 1)
    ensures v.Bool? ==> r == Some(!v.b)
  {
    match v
    case Int(i) => Some(i < 1)
    case Bool(b) => Some(!b)
    case _ => None
  }

  /** An independent statement of what validation accepts. */
  predicate Acceptable(config: map<string, Value>)
  {
    && (forall s :: s in RequiredSections ==> s in config)
    && config["camera"].Dict? && "device" in config["camera"].fields
    && !Falsy(config["camera"].fields["device"])
    && config["capture"].Dict? && "retry_attempts" in config["capture"].fields
    && BelowOne(config["capture"].fields["retry_attempts"]) == Some(false)
  }

  class Config {
    var config: map<string, Value>

    constructor (loaded: map<string, Value>)
      ensures config == loaded
    {
      config := loaded;
    }

    /** `_validate_config`: the sections in order, then the device, then the retry count. */
    method ValidateConfig() returns (err: Option<ConfigError>)
      ensures err == None <==> Acceptable(config)
      ensures forall i :: 0 <= i < |RequiredSections| && RequiredSections[i] !in config
                && (forall j :: 0 <= j < i ==> RequiredSections[j] in config)
                ==> err == Some(MissingSection(RequiredSections[i]))
      ensures err.Some? && !err.value.MissingSection? ==> forall s :: s in RequiredSections ==> s in config
      ensures && (forall s :: s in RequiredSections ==> s in config)
              && Subscript(config["camera"], "device").Ok?
              && Falsy(config["camera"].fields["device"])
              ==> err == Some(DeviceRequired)
    {
      for i := 0 to |RequiredSections|
        invariant forall j :: 0 <= j < i ==> RequiredSections[j] in config
      {
        if RequiredSections[i] !in config {
          return Some(MissingSection(RequiredSections[i]));
        }
      }
      assert RequiredSections[0] in config && RequiredSections[1] in config;
      var device := Subscript(config["camera"], "device");
      if device.Err? {
        return Some(device.error);
      }
      if Falsy(device.value) {
        return Some(DeviceRequired);
      }
      var retries := Subscript(config["capture"], "retry_attempts");
      if retries.Err? {
        return Some(retries.error);
      }
      var below := BelowOne(retries.value);
      if below.None? {
        return Some(WrongType);
      }
      if below.value {
        return Some(RetryAttemptsTooLow);
      }
      return None;
    }

    /** `get`. */
    function GetValue(key: string, default: Value): Value
      reads this
    {
      Get(config, key, default)
    }

    /** `get` of a key without a dot is the top-level section of that name, or the default when there is none. */
    lemma GetValueSection(key: string, default: Value)
      requires '.' !in key
      ensures GetValue(key, default) == if key in config then config[key] else default
    {
      Strings.SplitWithoutSep(key, '.');
      assert Split(key, '.')[1..] == [];
    }

    /** `set`; `raised` says a TypeError escaped, in which case nothing changed. */
    method Set(key: string, value: Value) returns (raised: bool)
      modifies this
      ensures var keys := Split(key, '.');
              && (raised <==> !PathWritable(old(config), keys))
              && config == if raised then old(config) else SetIn(old(config), keys, value).value
    {
      var keys := Split(key, '.');
      match SetIn(config, keys, value)
      case Some(updated) =>
        config := updated;
        raised := false;
      case None =>
        raised := true;
    }
  }

  /** After `set(key, value)`, `get(key)` gives back `value`. */
  lemma GetAfterSet(config: map<string, Value>, key: string, value: Value, default: Value)
    requires PathWritable(config, Split(key, '.'))
    ensures Get(SetIn(config, Split(key, '.'), value).value, key, default) == value
  {
    SetInThenLookup(config, Split(key, '.'), value);
  }

  /** After `set(key, value)`, `get(other)` is unchanged when the two key paths part ways. */
  lemma GetAfterSetElsewhere(config: map<string, Value>, key: string, value: Value, other: string, default: Value)
    requires PathWritable(config, Split(key, '.'))
    requires Diverge(Split(other, '.'), Split(key, '.'))
    ensures Get(SetIn(config, Split(key, '.'), value).value, other, default) == Get(config, other, default)
  {
    SetInFrame(config, Split(key, '.'), value, Split(other, '.'));
  }
}
