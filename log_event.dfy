/** The server-side event logger (`logEvent`): the process environment
    decides whether logging is on, an event envelope is built with
    defaults for what the caller left out, every `undefined` is pruned
    from it, and the document is written to the `events` collection:
    created under the caller's event id unless one is there already, or
    added under a fresh id. Environment variables are passed in; the
    collection is a map from document id to document plus the list of
    documents added under generated ids. */
module LogEvent {
  import opened JsValue
  import opened Wrappers

  /* ---------- configuration ---------- */

  /** The environment variables the logger reads; `None` is unset. */
  datatype Env = Env(appEnv: Option<string>, nodeEnv: Option<string>, appId: Option<string>,
                     logEvents: Option<string>, commitSha: Option<string>)

  /** `ENV`: `APP_ENV` when set, else "prod" in production and "dev" otherwise. */
  function AppEnv(env: Env): string {
    if env.appEnv.Some? then env.appEnv.value
    else if env.nodeEnv == Some("production") then "prod" else "dev"
  }

  /** `APP_ID` */
  function AppId(env: Env): string {
    if env.appId.Some? then env.appId.value else "homeschool-dictionary"
  }

  /** `isServerLoggingEnabled` */
  function IsServerLoggingEnabled(env: Env): bool {
    if env.logEvents == Some("1") then true
    else if env.logEvents == Some("0") then false
    else env.nodeEnv == Some("production")
  }

  /* ---------- pruneUndefinedDeep ---------- */

  /** `isPlainObject`: an object whose prototype is `Object.prototype` or
      null. Arrays have `Array.prototype`, and the `Exotic` values stand
      for objects with other prototypes. */
  predicate IsPlainObject(x: Value) {
    x.Obj?
  }

  /** `pruneUndefinedDeep`: arrays element-wise, plain objects without
      their `undefined` properties and with the rest pruned, everything
      else as it is. */
  function Prune(v: Value): Value
    decreases v, 1
  {
    if v.Arr? then Arr(PruneAll(v, v.elems))
    else if IsPlainObject(v) then Obj(PruneFields(v, v.fields))
    else v
  }

  /** `value.map(pruneUndefinedDeep)` over the elements of `parent`. */
  function PruneAll(ghost parent: Value, es: seq<Value>): (r: seq<Value>)
    requires forall i :: 0 <= i < |es| ==> es[i] < parent
    decreases parent, 0, |es|
  {
    if es == [] then [] else [Prune(es[0])] + PruneAll(parent, es[1..])
  }

  /** The loop over `Object.entries(value)` that fills `out`. */
  function PruneFields(ghost parent: Value, fs: seq<Field>): seq<Field>
    requires forall i :: 0 <= i < |fs| ==> fs[i].val < parent
    decreases parent, 0, |fs|
  {
    if fs == [] then []
    else
      (if fs[0].val != Undefined then [Field(fs[0].key, Prune(fs[0].val))] else [])
      + PruneFields(parent, fs[1..])
  }

  /** The properties of an object that are not `undefined`, in order. */
  function Defined(fs: seq<Field>): (r: seq<Field>)
    ensures |r| <= |fs|
  {
    if fs == [] then []
    else (if fs[0].val != Undefined then [fs[0]] else []) + Defined(fs[1..])
  }

  /** No plain object anywhere inside `v` has an `undefined` property. */
  predicate NoUndefined(v: Value)
    decreases v, 1
  {
    match v
    case Arr(es) => forall i :: 0 <= i < |es| ==> NoUndefined(es[i])
    case Obj(fs) => CleanFields(fs)
    case _ => true
  }

  /** No property of the list is `undefined`, and none holds one deeper down. */
  predicate CleanFields(fs: seq<Field>)
    decreases fs, 0
  {
    forall i :: 0 <= i < |fs| ==> fs[i].val != Undefined && NoUndefined(fs[i].val)
  }

  /* ---------- the envelope ---------- */

  /** The `extras` argument; `Undefined` where the caller left a key out
      (an absent `extras` has every key left out). `ua` is `None` when
      absent or null, `ttlDays` when absent or null. */
  datatype Extras = Extras(
    cache: Value, route: Value, clientTs: Value, session: Value, clientId: Value,
    userId: Value, ua: Option<string>, eventId: Option<string>, origin: Value,
    category: Value, severity: Value, version: Value, ttlDays: Option<int>)

  const NoExtras := Extras(Undefined, Undefined, Undefined, Undefined, Undefined,
                           Undefined, None, None, Undefined, Undefined, Undefined, Undefined, None)

  /** The sentinel `FieldValue.serverTimestamp()`, not a plain object. */
  const ServerTimestamp: Value := Exotic("serverTimestamp")

  /** The longest user agent kept. */
  const UaLimit: nat := 160

  predicate Nullish(x: Value) {
    x.Undefined? || x.Null?
  }

  /** `x ?? fallback` */
  function Coalesce(x: Value, fallback: Value): Value {
    if Nullish(x) then fallback else x
  }

  /** `extras.ua ? extras.ua.slice(0, 160) : null` */
  function UaField(ua: Option<string>): Value {
    if ua.Some? && ua.value != "" then
      Str(if |ua.value| <= UaLimit then ua.value else ua.value[..UaLimit])
    else Null
  }

  /** `extras.eventId` when it is truthy. */
  function EventIdOf(x: Extras): Option<string> {
    if x.eventId.Some? && x.eventId.value != "" then x.eventId else None
  }

  /** The properties of the envelope. */
  datatype Prop =
    | AppIdProp | EnvProp | EventProp | CategoryProp | SeverityProp | OriginProp | TsProp | ClientTsProp
    | EventIdProp | UserIdProp | SessionProp | ClientIdProp | RouteProp | CacheProp | VersionProp
    | UaProp | DataProp | TtlAtProp

  /** The property's name in the document. */
  function Name(p: Prop): string {
    match p
    case AppIdProp => "appId"
    case EnvProp => "env"
    case EventProp => "event"
    case CategoryProp => "category"
    case SeverityProp => "severity"
    case OriginProp => "origin"
    case TsProp => "ts"
    case ClientTsProp => "client_ts"
    case EventIdProp => "eventId"
    case UserIdProp => "userId"
    case SessionProp => "session"
    case ClientIdProp => "clientId"
    case RouteProp => "route"
    case CacheProp => "cache"
    case VersionProp => "version"
    case UaProp => "ua"
    case DataProp => "data"
    case TtlAtProp => "ttlAt"
  }

  /** The properties of the envelope, in the order it is built: with an
      event id it carries `eventId` and `ttlAt`, the fallback envelope
      neither. */
  function EnvelopeProps(withId: bool): seq<Prop> {
    [AppIdProp, EnvProp, EventProp, CategoryProp, SeverityProp, OriginProp, TsProp, ClientTsProp]
    + (if withId then [EventIdProp] else [])
    + [UserIdProp, SessionProp, ClientIdProp, RouteProp, CacheProp, VersionProp, UaProp, DataProp]
    + (if withId then [TtlAtProp] else [])
  }

  /** The value the envelope object `base` gives each property. */
  function EnvelopeValue(env: Env, event: string, data: Value, x: Extras, id: Option<string>, p: Prop): Value {
    match p
    case AppIdProp => Str(AppId(env))
    case EnvProp => Str(AppEnv(env))
    case EventProp => Str(event)
    case CategoryProp => Coalesce(x.category, Str("event"))
    case SeverityProp => Coalesce(x.severity, Str("info"))
    case OriginProp => Coalesce(x.origin, Str("server"))
    case TsProp => ServerTimestamp
    case ClientTsProp => x.clientTs
    case EventIdProp => if id.Some? then Str(id.value) else Undefined
    case UserIdProp => Coalesce(x.userId, Null)
    case SessionProp => Coalesce(x.session, Null)
    case ClientIdProp => Coalesce(x.clientId, Null)
    case RouteProp => x.route
    case CacheProp => Coalesce(x.cache, Null)
    case VersionProp => Coalesce(x.version, if env.commitSha.Some? then Str(env.commitSha.value) else Null)
    case UaProp => UaField(x.ua)
    case DataProp => data
    case TtlAtProp => if x.ttlDays.Some? then ServerTimestamp else Undefined
  }

  /** The properties of `base`, in order. */
  function EnvelopeFields(env: Env, event: string, data: Value, x: Extras, id: Option<string>): (fs: seq<Field>)
    ensures |fs| == |EnvelopeProps(id.Some?)|
  {
    var ps := EnvelopeProps(id.Some?);
    seq(|ps|, j requires 0 <= j < |ps| => Field(Name(ps[j]), EnvelopeValue(env, event, data, x, id, ps[j])))
  }

  function Envelope(env: Env, event: string, data: Value, x: Extras, id: Option<string>): Value {
    Obj(EnvelopeFields(env, event, data, x, id))
  }

  /** The document written: the pruned envelope. */
  function Document(env: Env, event: string, data: Value, x: Extras): Value {
    Prune(Envelope(env, event, data, x, EventIdOf(x)))
  }

  /* ---------- the write ---------- */

  /** The `events` collection of the app's document. */
  class EventCollection {
    /** Documents by id. */
    var docs: map<string, Value>
    /** Documents `add` stored, under ids the store generates. */
    var added: seq<Value>

    constructor ()
      ensures docs == map[] && added == []
    {
      docs := map[];
      added := [];
    }

    /** `logEvent`: nothing when logging is off; with an event id a
        create that keeps an existing document under that id (the
        "already exists" failure is swallowed); otherwise an add. */
    method LogEvent(env: Env, event: string, data: Value, x: Extras)
      modifies this
      ensures !IsServerLoggingEnabled(env) ==> docs == old(docs) && added == old(added)
      ensures IsServerLoggingEnabled(env) && EventIdOf(x).Some? ==>
        && added == old(added)
        && docs == (if EventIdOf(x).value in old(docs) then old(docs)
                    else old(docs)[EventIdOf(x).value := Document(env, event, data, x)])
      ensures IsServerLoggingEnabled(env) && EventIdOf(x).None? ==>
        docs == old(docs) && added == old(added) + [Document(env, event, data, x)]
    {
      if !IsServerLoggingEnabled(env) {
        return;
      }
      var id := EventIdOf(x);
      var doc := Prune(Envelope(env, event, data, x, id));
      if id.Some? {
        if id.value !in docs {
          docs := docs[id.value := doc];
        }
        return;
      }
      added := added + [doc];
    }
  }

  /* ---------- properties ---------- */

  /** The switch: "1" forces logging on, "0" forces it off, and otherwise
      it is on exactly in production. */
  lemma LoggingSwitch(env: Env)
    ensures env.logEvents == Some("1") ==> IsServerLoggingEnabled(env)
    ensures env.logEvents == Some("0") ==> !IsServerLoggingEnabled(env)
    ensures env.logEvents != Some("1") && env.logEvents != Some("0") ==>
      (IsServerLoggingEnabled(env) <==> env.nodeEnv == Some("production"))
  {
  }

  /** Arrays are pruned element by element: same length, and an
      `undefined` element stays. */
  lemma {:induction false} PruneArray(parent: Value, es: seq<Value>)
    requires forall i :: 0 <= i < |es| ==> es[i] < parent
    ensures |PruneAll(parent, es)| == |es|
    ensures forall i :: 0 <= i < |es| ==> PruneAll(parent, es)[i] == Prune(es[i])
    ensures forall i :: 0 <= i < |es| && es[i] == Undefined ==> PruneAll(parent, es)[i] == Undefined
  {
    if es != [] {
      PruneArray(parent, es[1..]);
      var r := PruneAll(parent, es);
      assert r[1..] == PruneAll(parent, es[1..]);
    }
  }

  /** A plain object loses exactly its `undefined` properties and keeps
      the others in order, each pruned. */
  lemma {:induction false} PruneObject(parent: Value, fs: seq<Field>)
    requires forall i :: 0 <= i < |fs| ==> fs[i].val < parent
    ensures var r := PruneFields(parent, fs);
      && |r| == |Defined(fs)|
      && forall i :: 0 <= i < |r| ==> r[i] == Field(Defined(fs)[i].key, Prune(Defined(fs)[i].val))
  {
    if fs != [] {
      PruneObject(parent, fs[1..]);
      var r := PruneFields(parent, fs);
      var rest := PruneFields(parent, fs[1..]);
      if fs[0].val != Undefined {
        assert r == [Field(fs[0].key, Prune(fs[0].val))] + rest;
        assert Defined(fs) == [fs[0]] + Defined(fs[1..]);
      } else {
        assert r == rest;
        assert Defined(fs) == Defined(fs[1..]);
      }
    }
  }

  /** `Defined` keeps exactly the properties whose value is not `undefined`. */
  lemma {:induction false} DefinedSpec(fs: seq<Field>)
    ensures forall f :: f in Defined(fs) <==> f in fs && f.val != Undefined
  {
    if fs != [] {
      DefinedSpec(fs[1..]);
      assert fs == [fs[0]] + fs[1..];
    }
  }

  /** Primitives and non-plain objects come back unchanged. */
  lemma PruneLeavesOthers(v: Value)
    requires !v.Arr? && !IsPlainObject(v)
    ensures Prune(v) == v
  {
  }

  /** After pruning, no plain object anywhere holds an `undefined`. */
  lemma {:induction false} PruneRemovesAll(v: Value)
    decreases v, 1
    ensures NoUndefined(Prune(v))
  {
    match v
    case Arr(es) =>
      PruneArray(v, es);
      forall i | 0 <= i < |es| ensures NoUndefined(PruneAll(v, es)[i]) {
        PruneRemovesAll(es[i]);
      }
    case Obj(fs) =>
      PruneFieldsClean(v, fs);
      assert Prune(v) == Obj(PruneFields(v, fs));
    case _ =>
  }

  lemma {:induction false} PruneFieldsClean(parent: Value, fs: seq<Field>)
    requires forall i :: 0 <= i < |fs| ==> fs[i].val < parent
    decreases parent, 0, |fs|
    ensures CleanFields(PruneFields(parent, fs))
  {
    if fs != [] {
      PruneFieldsClean(parent, fs[1..]);
      var r := PruneFields(parent, fs);
      var rest := PruneFields(parent, fs[1..]);
      if fs[0].val != Undefined {
        PruneRemovesAll(fs[0].val);
        PruneDefined(fs[0].val);
        assert r == [Field(fs[0].key, Prune(fs[0].val))] + rest;
        forall i | 0 <= i < |r| ensures r[i].val != Undefined && NoUndefined(r[i].val) {
          if i > 0 {
            assert r[i] == rest[i - 1];
          }
        }
      } else {
        assert r == rest;
      }
    }
  }

  /** Pruning never turns a value into `undefined`. */
  lemma PruneDefined(v: Value)
    ensures v != Undefined ==> Prune(v) != Undefined
  {
  }

  /** A value with nothing to prune comes back unchanged. */
  lemma {:induction false} PruneClean(v: Value)
    requires NoUndefined(v)
    decreases v, 1
    ensures Prune(v) == v
  {
    match v
    case Arr(es) =>
      PruneArray(v, es);
      forall i | 0 <= i < |es| ensures Prune(es[i]) == es[i] {
        PruneClean(es[i]);
      }
      assert PruneAll(v, es) == es;
    case Obj(fs) =>
      PruneFieldsOfClean(v, fs);
    case _ =>
  }

  lemma {:induction false} PruneFieldsOfClean(parent: Value, fs: seq<Field>)
    requires forall i :: 0 <= i < |fs| ==> fs[i].val < parent
    requires forall i :: 0 <= i < |fs| ==> fs[i].val != Undefined && NoUndefined(fs[i].val)
    decreases parent, 0, |fs|
    ensures PruneFields(parent, fs) == fs
  {
    if fs != [] {
      PruneFieldsOfClean(parent, fs[1..]);
      PruneClean(fs[0].val);
      assert fs == [Field(fs[0].key, fs[0].val)] + fs[1..];
    }
  }

  /** Pruning twice is pruning once. */
  lemma PruneIdempotent(v: Value)
    ensures Prune(Prune(v)) == Prune(v)
  {
    PruneRemovesAll(v);
    PruneClean(Prune(v));
  }

  /** Reading a property that is not `undefined` from a pruned plain
      object gives the pruned value. */
  lemma GetPruned(parent: Value, fs: seq<Field>, k: string, i: nat)
    requires forall j :: 0 <= j < |fs| ==> fs[j].val < parent
    requires i < |fs| && fs[i].key == k && fs[i].val != Undefined
    requires forall j :: 0 <= j < i ==> fs[j].key != k
    ensures Get(Obj(PruneFields(parent, fs)), k) == Prune(fs[i].val)
  {
    FindPruned(parent, fs, k, i);
  }

  /** The first field named `k` after pruning holds the pruned value of the
      first one before. */
  lemma {:induction false} FindPruned(parent: Value, fs: seq<Field>, k: string, i: nat)
    requires forall j :: 0 <= j < |fs| ==> fs[j].val < parent
    requires i < |fs| && fs[i].key == k && fs[i].val != Undefined
    requires forall j :: 0 <= j < i ==> fs[j].key != k
    ensures FieldIndex(PruneFields(parent, fs), k) < |PruneFields(parent, fs)|
    ensures PruneFields(parent, fs)[FieldIndex(PruneFields(parent, fs), k)].val == Prune(fs[i].val)
  {
    var r := PruneFields(parent, fs);
    var rest := PruneFields(parent, fs[1..]);
    if fs[0].val != Undefined {
      var f := Field(fs[0].key, Prune(fs[0].val));
      assert r == [f] + rest;
      if i == 0 {
        assert FieldIndex(r, k) == 0;
      } else {
        FindPruned(parent, fs[1..], k, i - 1);
        FieldIndexCons(f, rest, k);
      }
    } else {
      assert r == rest;
      FindPruned(parent, fs[1..], k, i - 1);
    }
  }

  /** Looking a key up past a first field with another name. */
  lemma FieldIndexCons(f: Field, rest: seq<Field>, k: string)
    requires f.key != k
    ensures FieldIndex([f] + rest, k) == 1 + FieldIndex(rest, k)
  {
    assert ([f] + rest)[1..] == rest;
  }

  /** A property that is `undefined` wherever it occurs is gone after pruning. */
  lemma {:induction false} GetPrunedAbsent(parent: Value, fs: seq<Field>, k: string)
    requires forall j :: 0 <= j < |fs| ==> fs[j].val < parent
    requires forall j :: 0 <= j < |fs| && fs[j].key == k ==> fs[j].val == Undefined
    ensures Get(Obj(PruneFields(parent, fs)), k) == Undefined
  {
    if fs != [] {
      GetPrunedAbsent(parent, fs[1..], k);
      var r := PruneFields(parent, fs);
      var rest := PruneFields(parent, fs[1..]);
      if fs[0].val != Undefined {
        assert r == [Field(fs[0].key, Prune(fs[0].val))] + rest;
        GetSkip(Field(fs[0].key, Prune(fs[0].val)), rest, k);
      } else {
        assert r == rest;
      }
    }
  }

  /** A property of another name in front does not change a lookup. */
  lemma GetSkip(f: Field, rest: seq<Field>, k: string)
    requires f.key != k
    ensures Get(Obj([f] + rest), k) == Get(Obj(rest), k)
  {
    assert ([f] + rest)[1..] == rest;
  }

  /** Distinct properties have distinct names. */
  lemma NameInjective(p: Prop, q: Prop)
    ensures Name(p) == Name(q) ==> p == q
  {
  }

  /** The position of the first `p` in `ps`, or |ps| when there is none. */
  function PropIndex(ps: seq<Prop>, p: Prop): (i: nat)
    ensures i <= |ps| && (i < |ps| ==> ps[i] == p)
    ensures forall j :: 0 <= j < i ==> ps[j] != p
    ensures p in ps ==> i < |ps|
  {
    if ps == [] then 0
    else if ps[0] == p then 0
    else 1 + PropIndex(ps[1..], p)
  }

  /** A property of the envelope that is not `undefined` reads back from
      the document pruned. */
  lemma DocumentField(env: Env, event: string, data: Value, x: Extras, p: Prop)
    requires p in EnvelopeProps(EventIdOf(x).Some?)
    requires EnvelopeValue(env, event, data, x, EventIdOf(x), p) != Undefined
    ensures Get(Document(env, event, data, x), Name(p)) == Prune(EnvelopeValue(env, event, data, x, EventIdOf(x), p))
  {
    var e := Envelope(env, event, data, x, EventIdOf(x));
    var ps := EnvelopeProps(EventIdOf(x).Some?);
    var i := PropIndex(ps, p);
    forall j | 0 <= j < i ensures e.fields[j].key != Name(p) {
      NameInjective(ps[j], p);
    }
    GetPruned(e, e.fields, Name(p), i);
  }

  /** A property that the envelope lacks or leaves `undefined` is not in
      the document. */
  lemma DocumentLacks(env: Env, event: string, data: Value, x: Extras, p: Prop)
    requires p !in EnvelopeProps(EventIdOf(x).Some?) || EnvelopeValue(env, event, data, x, EventIdOf(x), p) == Undefined
    ensures Get(Document(env, event, data, x), Name(p)) == Undefined
  {
    var e := Envelope(env, event, data, x, EventIdOf(x));
    var ps := EnvelopeProps(EventIdOf(x).Some?);
    forall j | 0 <= j < |e.fields| && e.fields[j].key == Name(p) ensures e.fields[j].val == Undefined {
      NameInjective(ps[j], p);
    }
    GetPrunedAbsent(e, e.fields, Name(p));
  }

  /** The fixed properties: the app id, the environment and the event name. */
  lemma EnvelopeFixed(env: Env, event: string, data: Value, x: Extras)
    ensures var doc := Document(env, event, data, x);
      && Get(doc, "appId") == Str(AppId(env))
      && Get(doc, "env") == Str(AppEnv(env))
      && Get(doc, "event") == Str(event)
  {
    DocumentField(env, event, data, x, AppIdProp);
    DocumentField(env, event, data, x, EnvProp);
    DocumentField(env, event, data, x, EventProp);
  }

  /** The properties that take a default when the caller leaves them out. */
  predicate Defaulted(p: Prop) {
    p.CategoryProp? || p.SeverityProp? || p.OriginProp? || p.UserIdProp? || p.SessionProp? || p.ClientIdProp? || p.CacheProp?
  }

  /** What the caller passed for a defaulted property. */
  function Given(x: Extras, p: Prop): Value {
    match p
    case CategoryProp => x.category
    case SeverityProp => x.severity
    case OriginProp => x.origin
    case UserIdProp => x.userId
    case SessionProp => x.session
    case ClientIdProp => x.clientId
    case CacheProp => x.cache
    case _ => Undefined
  }

  /** Category "event", severity "info", origin "server", and null for a
      missing user, session, client or cache state. */
  function Default(p: Prop): Value {
    match p
    case CategoryProp => Str("event")
    case SeverityProp => Str("info")
    case OriginProp => Str("server")
    case _ => Null
  }

  /** A defaulted property left out (or null) is written with its default;
      one that is given is written pruned. */
  lemma EnvelopeDefaults(env: Env, event: string, data: Value, x: Extras, p: Prop)
    requires Defaulted(p)
    ensures var v := Get(Document(env, event, data, x), Name(p));
      && (Nullish(Given(x, p)) ==> v == Default(p))
      && (!Nullish(Given(x, p)) ==> v == Prune(Given(x, p)))
  {
    DocumentField(env, event, data, x, p);
  }

  /** The user agent: its first 160 characters, or null when it is
      missing or empty. */
  lemma EnvelopeUserAgent(env: Env, event: string, data: Value, x: Extras)
    ensures var ua := Get(Document(env, event, data, x), "ua");
      && (x.ua.None? || x.ua.value == "" <==> ua == Null)
      && (ua != Null ==>
            && ua.Str? && |ua.s| == (if |x.ua.value| <= UaLimit then |x.ua.value| else UaLimit)
            && ua.s == x.ua.value[..|ua.s|])
  {
    DocumentField(env, event, data, x, UaProp);
  }

  /** With an event id the document carries that id; the fallback document
      has neither an id nor `ttlAt`, and `ttlAt` is also left out when no
      `ttlDays` is given. */
  lemma EnvelopeIds(env: Env, event: string, data: Value, x: Extras)
    ensures var doc := Document(env, event, data, x);
      && (EventIdOf(x).Some? ==> Get(doc, "eventId") == Str(EventIdOf(x).value))
      && (EventIdOf(x).None? ==> Get(doc, "eventId") == Undefined)
      && (EventIdOf(x).None? || x.ttlDays.None? ==> Get(doc, "ttlAt") == Undefined)
  {
    var doc := Document(env, event, data, x);
    if EventIdOf(x).Some? {
      DocumentField(env, event, data, x, EventIdProp);
    } else {
      DocumentLacks(env, event, data, x, EventIdProp);
    }
    if EventIdOf(x).None? || x.ttlDays.None? {
      DocumentLacks(env, event, data, x, TtlAtProp);
    }
  }

  /** A second write with the same event id leaves the collection as the
      first one left it. */
  lemma CreateIsIdempotent(docs: map<string, Value>, id: string, doc1: Value, doc2: Value)
    ensures var once := if id in docs then docs else docs[id := doc1];
      (if id in once then once else once[id := doc2]) == once
  {
  }
}
