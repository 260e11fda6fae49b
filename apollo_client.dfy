/** The Apollo client provider (src/providers/apollo-client/apollo-client.tsx): the lazily built
    client, the cache ids of `dataIdFromObject`, and `omitDeep`, which strips `__typename` from the
    variables of every outgoing operation. The client itself, its HTTP link and its cache are
    library objects; here a client is an object with an identity and nothing else. */
module Apollo {
  import opened Wrappers

  // ---------------------------------------------------------------------------------------------
  // JSON values

  /** A value of the GraphQL variables. An object is the list of its properties in the order of
      `Object.keys`, so its names are distinct. */
  datatype Json = JNull | JBool(b: bool) | JNum(n: int) | JStr(s: string) | JArr(items: seq<Json>) | JObj(fields: seq<Field>)

  datatype Field = Field(name: string, value: Json)

  /** No object at any depth of v, inside objects or arrays, has a property named key. */
  predicate KeyFree(v: Json, key: string)
  {
    match v
    case JArr(items) => forall i :: 0 <= i < |items| ==> KeyFree(items[i], key)
    case JObj(fields) => forall i :: 0 <= i < |fields| ==> fields[i].name != key && KeyFree(fields[i].value, key)
    case _ => true
  }

  /** Walking v for key never reaches a null array element: every array at a depth the walk
      visits (not under a property named key) holds no null, at any depth. */
  predicate NoNullReached(v: Json, key: string)
  {
    match v
    case JArr(items) => forall i :: 0 <= i < |items| ==> items[i] != JNull && NoNullReached(items[i], key)
    case JObj(fields) => forall i :: 0 <= i < |fields| ==> fields[i].name != key ==> NoNullReached(fields[i].value, key)
    case _ => true
  }

  /** The properties of an object other than key, in order. */
  function Kept(fields: seq<Field>, key: string): (r: seq<Field>)
    ensures |r| <= |fields|
    ensures forall i :: 0 <= i < |r| ==> r[i].name != key
  {
    if |fields| == 0 then []
    else if fields[0].name == key then Kept(fields[1..], key)
    else [fields[0]] + Kept(fields[1..], key)
  }

  // ---------------------------------------------------------------------------------------------
  // omitDeep

  /** `omitDeep(obj, key)` on an object: a fresh object with the properties other than key, in
      order, each value passed through `OmitValue`. None when a nested walk throws. */
  function OmitDeep(fields: seq<Field>, key: string): (r: Option<seq<Field>>)
    ensures r.Some? ==> |r.value| == |Kept(fields, key)|
    ensures r.Some? ==> forall i :: 0 <= i < |r.value| ==> r.value[i].name == Kept(fields, key)[i].name
    decreases fields, 2
  {
    if |fields| == 0 then Some([])
    else if fields[0].name == key then OmitDeep(fields[1..], key)
    else match (OmitValue(fields[0].value, key), OmitDeep(fields[1..], key))
      case (Some(v), Some(rest)) => Some([Field(fields[0].name, v)] + rest)
      case _ => None
  }

  /** The value stored for a kept property: an array is walked, a non-null object is stripped
      recursively, and anything else (null included) is copied. */
  function OmitValue(v: Json, key: string): (r: Option<Json>)
    ensures !v.JArr? && !v.JObj? ==> r == Some(v)
    ensures r.Some? ==> (v.JArr? <==> r.value.JArr?) && (v.JObj? <==> r.value.JObj?)
    decreases v, 0
  {
    match v
    case JArr(items) =>
      (match ArrayWalk(items, key)
       case Some(w) => Some(JArr(w))
       case None => None)
    case JObj(fields) =>
      (match OmitDeep(fields, key)
       case Some(fs) => Some(JObj(fs))
       case None => None)
    case _ => Some(v)
  }

  /** The callback of `omitDeepArrayWalk`'s `map`: as `OmitValue`, except that a null element
      reaches `omitDeep(null)`, whose `Object.keys(null)` throws. */
  function WalkElement(v: Json, key: string): (r: Option<Json>)
    ensures v.JNull? ==> r.None?
    ensures !v.JNull? ==> r == OmitValue(v, key)
    decreases v, 1
  {
    if v.JNull? then None else OmitValue(v, key)
  }

  /** `omitDeepArrayWalk(arr, key)`: the elements mapped one by one, keeping length and order;
      None when any element throws. */
  function ArrayWalk(items: seq<Json>, key: string): (r: Option<seq<Json>>)
    ensures r.Some? <==> forall i :: 0 <= i < |items| ==> WalkElement(items[i], key).Some?
    ensures r.Some? ==> |r.value| == |items| && forall i :: 0 <= i < |items| ==> Some(r.value[i]) == WalkElement(items[i], key)
    decreases items, 2
  {
    if |items| == 0 then Some([])
    else match (WalkElement(items[0], key), ArrayWalk(items[1..], key))
      case (Some(v), Some(rest)) =>
        assert forall i :: 1 <= i < |items| ==> items[i] == items[1..][i - 1];
        Some([v] + rest)
      case (None, _) => None
      case (_, None) =>
        assert forall i :: 0 <= i < |items| - 1 ==> items[1..][i] == items[i + 1];
        None
  }

  /** The kept properties, one by one: property i of the result is the i-th kept property with
      its value passed through `OmitValue`. */
  lemma {:induction false} OmitDeepFields(fields: seq<Field>, key: string, i: nat)
    requires OmitDeep(fields, key).Some? && i < |Kept(fields, key)|
    ensures var k := Kept(fields, key)[i];
      OmitValue(k.value, key).Some? && OmitDeep(fields, key).value[i] == Field(k.name, OmitValue(k.value, key).value)
    decreases |fields|
  {
    if fields[0].name == key {
      OmitDeepFields(fields[1..], key, i);
    } else if i > 0 {
      OmitDeepFields(fields[1..], key, i - 1);
    }
  }

  /** Splitting the properties anywhere: stripping a concatenation strips each part, and throws
      when either part does. */
  lemma {:induction false} OmitDeepConcat(a: seq<Field>, b: seq<Field>, key: string)
    ensures OmitDeep(a + b, key) == (match (OmitDeep(a, key), OmitDeep(b, key))
                                     case (Some(x), Some(y)) => Some(x + y)
                                     case _ => None)
    decreases |a|
  {
    if |a| == 0 {
      assert a + b == b;
      if OmitDeep(b, key).Some? {
        assert [] + OmitDeep(b, key).value == OmitDeep(b, key).value;
      }
    } else {
      assert (a + b)[0] == a[0] && (a + b)[1..] == a[1..] + b;
      OmitDeepConcat(a[1..], b, key);
      if a[0].name != key {
        var head := OmitValue(a[0].value, key);
        var x, y := OmitDeep(a[1..], key), OmitDeep(b, key);
        if head.Some? && x.Some? && y.Some? {
          assert [Field(a[0].name, head.value)] + (x.value + y.value)
              == ([Field(a[0].name, head.value)] + x.value) + y.value;
        }
      }
    }
  }

  /** The walk succeeds exactly when it reaches no null array element. */
  lemma {:induction false} OmitValueDefined(v: Json, key: string)
    ensures OmitValue(v, key).Some? <==> NoNullReached(v, key)
    decreases v, 2
  {
    match v
    case JArr(items) => ArrayWalkDefined(items, key);
    case JObj(fields) => OmitDeepDefined(fields, key);
    case _ =>
  }

  lemma {:induction false} ArrayWalkDefined(items: seq<Json>, key: string)
    ensures ArrayWalk(items, key).Some? <==> forall i :: 0 <= i < |items| ==> items[i] != JNull && NoNullReached(items[i], key)
    decreases items, 1
  {
    forall i | 0 <= i < |items| {
      OmitValueDefined(items[i], key);
    }
  }

  lemma {:induction false} OmitDeepDefined(fields: seq<Field>, key: string)
    ensures OmitDeep(fields, key).Some? <==>
      forall i :: 0 <= i < |fields| ==> fields[i].name != key ==> NoNullReached(fields[i].value, key)
    decreases fields, 1
  {
    if |fields| > 0 {
      OmitValueDefined(fields[0].value, key);
      OmitDeepDefined(fields[1..], key);
      assert forall i :: 1 <= i < |fields| ==> fields[i] == fields[1..][i - 1];
    }
  }

  /** The result has no property named key at any depth. */
  lemma {:induction false} OmitValueKeyFree(v: Json, key: string)
    requires OmitValue(v, key).Some?
    ensures KeyFree(OmitValue(v, key).value, key)
    decreases v, 2
  {
    match v
    case JArr(items) => ArrayWalkKeyFree(items, key);
    case JObj(fields) => OmitDeepKeyFree(fields, key);
    case _ =>
  }

  lemma {:induction false} ArrayWalkKeyFree(items: seq<Json>, key: string)
    requires ArrayWalk(items, key).Some?
    ensures forall i :: 0 <= i < |items| ==> KeyFree(ArrayWalk(items, key).value[i], key)
    decreases items, 1
  {
    forall i | 0 <= i < |items| {
      OmitValueKeyFree(items[i], key);
    }
  }

  lemma {:induction false} OmitDeepKeyFree(fields: seq<Field>, key: string)
    requires OmitDeep(fields, key).Some?
    ensures var r := OmitDeep(fields, key).value;
      forall i :: 0 <= i < |r| ==> r[i].name != key && KeyFree(r[i].value, key)
    decreases fields, 1
  {
    if |fields| > 0 {
      OmitDeepKeyFree(fields[1..], key);
      if fields[0].name != key {
        OmitValueKeyFree(fields[0].value, key);
      }
    }
  }

  /** The result reaches no null array element either: the walk would have thrown on one. */
  lemma {:induction false} OmitValueNoNull(v: Json, key: string)
    requires OmitValue(v, key).Some?
    ensures NoNullReached(OmitValue(v, key).value, key)
    decreases v, 2
  {
    match v
    case JArr(items) => ArrayWalkNoNull(items, key);
    case JObj(fields) => OmitDeepNoNull(fields, key);
    case _ =>
  }

  lemma {:induction false} ArrayWalkNoNull(items: seq<Json>, key: string)
    requires ArrayWalk(items, key).Some?
    ensures var r := ArrayWalk(items, key).value;
      forall i :: 0 <= i < |r| ==> r[i] != JNull && NoNullReached(r[i], key)
    decreases items, 1
  {
    forall i | 0 <= i < |items| {
      OmitValueNoNull(items[i], key);
    }
  }

  lemma {:induction false} OmitDeepNoNull(fields: seq<Field>, key: string)
    requires OmitDeep(fields, key).Some?
    ensures var r := OmitDeep(fields, key).value;
      forall i :: 0 <= i < |r| ==> NoNullReached(r[i].value, key)
    decreases fields, 1
  {
    if |fields| > 0 {
      OmitDeepNoNull(fields[1..], key);
      if fields[0].name != key {
        OmitValueNoNull(fields[0].value, key);
      }
    }
  }

  /** A value without key whose walk reaches no null comes back unchanged. */
  lemma {:induction false} OmitValueIdentity(v: Json, key: string)
    requires KeyFree(v, key) && NoNullReached(v, key)
    ensures OmitValue(v, key) == Some(v)
    decreases v, 2
  {
    match v
    case JArr(items) => ArrayWalkIdentity(items, key);
    case JObj(fields) => OmitDeepIdentity(fields, key);
    case _ =>
  }

  lemma {:induction false} ArrayWalkIdentity(items: seq<Json>, key: string)
    requires forall i :: 0 <= i < |items| ==> items[i] != JNull && KeyFree(items[i], key) && NoNullReached(items[i], key)
    ensures ArrayWalk(items, key) == Some(items)
    decreases items, 1
  {
    forall i | 0 <= i < |items| {
      OmitValueIdentity(items[i], key);
    }
    assert ArrayWalk(items, key).value == items;
  }

  lemma {:induction false} OmitDeepIdentity(fields: seq<Field>, key: string)
    requires forall i :: 0 <= i < |fields| ==> fields[i].name != key && KeyFree(fields[i].value, key)
    requires forall i :: 0 <= i < |fields| ==> NoNullReached(fields[i].value, key)
    ensures OmitDeep(fields, key) == Some(fields)
    decreases fields, 1
  {
    if |fields| > 0 {
      OmitValueIdentity(fields[0].value, key);
      OmitDeepIdentity(fields[1..], key);
      assert fields == [fields[0]] + fields[1..];
    }
  }

  /** Stripping twice strips no more than stripping once. */
  lemma OmitDeepIdempotent(fields: seq<Field>, key: string)
    requires OmitDeep(fields, key).Some?
    ensures OmitDeep(OmitDeep(fields, key).value, key) == OmitDeep(fields, key)
  {
    OmitDeepKeyFree(fields, key);
    OmitDeepNoNull(fields, key);
    OmitDeepIdentity(OmitDeep(fields, key).value, key);
  }

  /** One more property at the end: a kept property appends its stripped value, an omitted
      one adds nothing. */
  lemma OmitDeepSnoc(prefix: seq<Field>, f: Field, key: string)
    ensures OmitDeep(prefix + [f], key) ==
      if f.name == key then OmitDeep(prefix, key)
      else match (OmitDeep(prefix, key), OmitValue(f.value, key))
        case (Some(x), Some(v)) => Some(x + [Field(f.name, v)])
        case _ => None
  {
    OmitDeepConcat(prefix, [f], key);
    assert [f][1..] == [];
    if f.name == key {
      if OmitDeep(prefix, key).Some? {
        assert OmitDeep(prefix, key).value + [] == OmitDeep(prefix, key).value;
      }
    } else if OmitValue(f.value, key).Some? {
      assert OmitDeep([f], key) == Some([Field(f.name, OmitValue(f.value, key).value)] + []);
      assert [Field(f.name, OmitValue(f.value, key).value)] + [] == [Field(f.name, OmitValue(f.value, key).value)];
    }
  }

  /** `omitDeep` as written: `Object.keys`, then a `forEach` that fills a fresh object with the
      kept properties. None when a nested walk throws. */
  method OmitDeepLoop(fields: seq<Field>, key: string) returns (r: Option<seq<Field>>)
    ensures r == OmitDeep(fields, key)
    decreases fields, 1
  {
    var newObj: seq<Field> := [];
    var i := 0;
    while i < |fields|
      invariant 0 <= i <= |fields|
      invariant OmitDeep(fields[..i], key) == Some(newObj)
    {
      OmitDeepSnoc(fields[..i], fields[i], key);
      assert fields[..i + 1] == fields[..i] + [fields[i]];
      if fields[i].name != key {
        var stored := StoreValue(fields[i].value, key);
        if stored.None? {
          OmitDeepConcat(fields[..i + 1], fields[i + 1..], key);
          assert fields[..i + 1] + fields[i + 1..] == fields;
          return None;
        }
        newObj := newObj + [Field(fields[i].name, stored.value)];
      }
      i := i + 1;
    }
    assert fields[..i] == fields;
    r := Some(newObj);
  }

  /** The body of the `forEach` for a kept property: an array goes to `omitDeepArrayWalk`, a
      non-null object to a recursive `omitDeep`, and any other value is copied. */
  method StoreValue(val: Json, key: string) returns (stored: Option<Json>)
    ensures stored == OmitValue(val, key)
    decreases val, 0
  {
    if val.JArr? {
      var walked := ArrayWalk(val.items, key);
      stored := if walked.Some? then Some(JArr(walked.value)) else None;
    } else if val.JObj? {
      var inner := OmitDeepLoop(val.fields, key);
      stored := if inner.Some? then Some(JObj(inner.value)) else None;
    } else {
      stored := Some(val);
    }
  }

  // ---------------------------------------------------------------------------------------------
  // The link that cleans `__typename` from the variables

  const Typename := "__typename"

  /** An outgoing operation; its variables are an object, or absent. */
  datatype Operation = Operation(variables: Option<seq<Field>>)

  /** `cleanTypenameLink`: variables (any object is truthy) are replaced by their stripped copy;
      an operation without variables is passed on as it is. None when stripping throws. */
  function CleanTypename(op: Operation): (r: Option<Operation>)
    ensures op.variables.None? ==> r == Some(op)
    ensures op.variables.Some? ==> (r.Some? <==> OmitDeep(op.variables.value, Typename).Some?)
    ensures r.Some? && r.value.variables.Some? ==> KeyFree(JObj(r.value.variables.value), Typename)
  {
    match op.variables
    case None => Some(op)
    case Some(vars) =>
      var cleaned := OmitDeep(vars, Typename);
      if cleaned.None? then None
      else
        OmitDeepKeyFree(vars, Typename);
        Some(Operation(cleaned))
  }

  // ---------------------------------------------------------------------------------------------
  // dataIdFromObject

  /** A result object as the cache sees it: its string-valued properties, `__typename` among them. */
  type CacheObject = map<string, string>

  /** `object[name]` in a string concatenation: the value, or "undefined" when absent. */
  function Text(o: CacheObject, name: string): string
  {
    if name in o then o[name] else "undefined"
  }

  function Get(o: CacheObject, name: string): Option<string>
  {
    if name in o then Some(o[name]) else None
  }

  /** `dataIdFromObject`: the id property of each known type (`p_id`, `b_id`, `b_r_id`,
      `email`), `opt_id.lang` for master data, and undefined (None) for any other type. */
  function DataIdFromObject(o: CacheObject): (id: Option<string>)
    ensures Get(o, Typename) !in {Some("Person"), Some("Business"), Some("Restaurant"), Some("Customer"), Some("MasterData")}
      ==> id.None?
    ensures Get(o, Typename) == Some("MasterData") ==> id == Some(Text(o, "opt_id") + "." + Text(o, "lang"))
  {
    match Get(o, Typename)
    case Some("Person") => Get(o, "p_id")
    case Some("Business") => Get(o, "b_id")
    case Some("Restaurant") => Get(o, "b_r_id")
    case Some("Customer") => Get(o, "email")
    case Some("MasterData") => Some(Text(o, "opt_id") + "." + Text(o, "lang"))
    case _ => None
  }

  /** In `opt + "." + lang` with a dot-free `opt`, the first '.' sits right after `opt`. */
  lemma DotSplit(opt: string, lang: string)
    requires '.' !in opt
    ensures var s := opt + "." + lang;
      |opt| < |s| && s[|opt|] == '.' && (forall i :: 0 <= i < |opt| ==> s[i] != '.')
      && s[..|opt|] == opt && s[|opt| + 1..] == lang
  {
  }

  /** Master data ids tell their entries apart as long as the option ids have no '.': the first
      '.' of the id ends `opt_id`, and the rest is `lang`, dots and all. */
  lemma MasterDataIdInjective(opt1: string, lang1: string, opt2: string, lang2: string)
    requires '.' !in opt1 && '.' !in opt2
    ensures opt1 + "." + lang1 == opt2 + "." + lang2 <==> opt1 == opt2 && lang1 == lang2
  {
    DotSplit(opt1, lang1);
    DotSplit(opt2, lang2);
    if opt1 + "." + lang1 == opt2 + "." + lang2 {
      assert |opt1| == |opt2|;
    }
  }

  /** With a '.' inside `opt_id`, two different entries share one cache id. */
  lemma MasterDataIdCollision()
    ensures DataIdFromObject(map[Typename := "MasterData", "opt_id" := "a.b", "lang" := "c"])
         == DataIdFromObject(map[Typename := "MasterData", "opt_id" := "a", "lang" := "b.c"])
  {
    assert "a.b" + "." + "c" == "a" + "." + "b.c";
  }

  // ---------------------------------------------------------------------------------------------
  // The provider

  /** A client built by `initApollo`; only its identity matters here. */
  class Client {
    constructor ()
    {
    }
  }

  /** `ApolloClientProvider`: the `apollo` field is undefined (None) until the first request. */
  class Provider {
    var apollo: Option<Client>
    /** How many times `initApollo` has run. */
    ghost var inits: nat

    constructor ()
      ensures apollo.None? && inits == 0
    {
      apollo := None;
      inits := 0;
    }

    /** `getApolloClient`: builds the client only when there is none yet and returns the stored
        one, so every later call returns the same client and builds nothing. */
    method GetApolloClient() returns (c: Client)
      modifies this`apollo, this`inits
      ensures old(apollo).Some? ==> apollo == old(apollo) && c == old(apollo).value && inits == old(inits)
      ensures old(apollo).None? ==> fresh(c) && apollo == Some(c) && inits == old(inits) + 1
    {
      if apollo.None? {
        InitApollo();
      }
      c := apollo.value;
    }

    /** `initApollo`: stores a new client. */
    method InitApollo()
      modifies this`apollo, this`inits
      ensures apollo.Some? && fresh(apollo.value) && inits == old(inits) + 1
    {
      var client := new Client();
      apollo := Some(client);
      inits := inits + 1;
    }
  }

  /** Two requests in a row initialise at most once and hand out one client. */
  method GetTwice(p: Provider) returns (c1: Client, c2: Client)
    modifies p`apollo, p`inits
    ensures c1 == c2 && p.apollo == Some(c1)
    ensures p.inits == old(p.inits) + (if old(p.apollo).None? then 1 else 0)
  {
    c1 := p.GetApolloClient();
    c2 := p.GetApolloClient();
  }
}
