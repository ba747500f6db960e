/** Version-addressable action contracts and the contract a recovery may use (registry.py).
    SHA-256 is modelled symbolically: a digest is what was digested. */
module Registry {
  import opened Types

  /** A JSON value; a number is its text. */
  datatype Json =
    | Null
    | Bool(value: bool)
    | Number(digits: string)
    | Text(text: string)
    | Array(items: seq<Json>)
    | Object(members: Document)

  type Document = map<string, Json>

  /** A contract version. `kind` is "http" or "runtime"; only HTTP contracts carry request templates,
      only runtime ones an implementation. */
  datatype ActionDefinition = ActionDefinition(
    id: string,
    version: string,
    kind: string,
    semantic: Document,
    inputSchema: Document,
    outputSchema: Option<Document>,
    forward: Option<Document>,
    compensation: Option<Document>,
    implementation: Option<string>,
    implementationHash: Option<string>,
    executionPolicy: Option<Document>,
    active: bool)

  datatype Key =
    | Id
    | Version
    | Kind
    | Semantic
    | InputSchema
    | OutputSchema
    | Forward
    | Compensation
    | Implementation
    | ImplementationHash
    | ExecutionPolicy
    | OtherKey(name: string)

  /** The persisted form: any JSON object. */
  type Snapshot = map<Key, Json>

  /** `Other` is any stored text that is not a digest of a snapshot. */
  datatype Digest = Sha(snapshot: Snapshot) | Other(text: string)

  /** A class, its qualified name, and its source text where it can be found. */
  datatype ClassCode = ClassCode(id: nat, name: string, source: Option<string>)

  /** What is digested for a class: its source text, or else its name. */
  function SourceDigest(c: ClassCode): string { if c.source.Some? then c.source.value else c.name }

  /** What runs behind a contract: two request templates, or an instance of a class. */
  datatype Action =
    | HttpAction(forward: Document, compensation: Document)
    | RuntimeAction(code: ClassCode, instance: nat)

  datatype RegisteredAction = RegisteredAction(definition: ActionDefinition, action: Action)

  /** What the libraries answer: the JSON Schema and execution-policy validators, `str` of a value that
      is no text and `dict` of a list. */
  datatype Library = Library(
    schemaOk: Document -> bool,
    policyOk: Document -> bool,
    textOf: Json -> string,
    dictOf: seq<Json> -> Option<Document>)

  const ANY_OBJECT: Document := map["type" := Text("object")]

  /** `__post_init__`. */
  predicate WellFormed(d: ActionDefinition, lib: Library) {
    && d.id != "" && d.version != "" && d.kind in {"http", "runtime"}
    && (d.kind == "http" ==> d.forward.Some? && d.compensation.Some?)
    && lib.schemaOk(d.inputSchema)
    && (d.outputSchema.Some? ==> lib.schemaOk(d.outputSchema.value))
    && (d.executionPolicy.Some? ==> lib.policyOk(d.executionPolicy.value))
  }

  function DocumentValue(d: Option<Document>): Option<Json> { if d.Some? then Some(Object(d.value)) else None }

  function TextValue(t: Option<string>): Option<Json> { if t.Some? then Some(Text(t.value)) else None }

  /** What a contract writes under a key, if anything. */
  function Written(d: ActionDefinition, k: Key): Option<Json> {
    match k
    case Id => Some(Text(d.id))
    case Version => Some(Text(d.version))
    case Kind => Some(Text(d.kind))
    case Semantic => Some(Object(d.semantic))
    case InputSchema => Some(Object(d.inputSchema))
    case OutputSchema => DocumentValue(d.outputSchema)
    case Forward => DocumentValue(d.forward)
    case Compensation => DocumentValue(d.compensation)
    case Implementation => TextValue(d.implementation)
    case ImplementationHash => TextValue(d.implementationHash)
    case ExecutionPolicy => DocumentValue(d.executionPolicy)
    case OtherKey(_) => None
  }

  const KEYS: set<Key> := {Id, Version, Kind, Semantic, InputSchema, OutputSchema, Forward, Compensation,
                           Implementation, ImplementationHash, ExecutionPolicy}

  function SnapshotOf(d: ActionDefinition): Snapshot {
    map k | k in KEYS && Written(d, k).Some? :: Written(d, k).value
  }

  function DigestOf(d: ActionDefinition): Digest { Sha(SnapshotOf(d)) }

  /** `str(value)`. */
  function AsText(j: Json, lib: Library): string { if j.Text? then j.text else lib.textOf(j) }

  /** `dict(value)`; None stands for its error. */
  function AsDict(j: Json, lib: Library): Option<Document> {
    match j
    case Object(members) => Some(members)
    case Array(items) => lib.dictOf(items)
    case Text(text) => if text == "" then Some(map[]) else None
    case _ => None
  }

  function Present(s: Snapshot, k: Key): Option<Json> { if k in s && s[k] != Null then Some(s[k]) else None }

  function TextGiven(s: Snapshot, k: Key, lib: Library): Option<string> {
    if Present(s, k).Some? then Some(AsText(s[k], lib)) else None
  }

  function DocumentGiven(s: Snapshot, k: Key, lib: Library): Option<Document> {
    if Present(s, k).Some? then AsDict(s[k], lib) else None
  }

  function DocumentOr(s: Snapshot, k: Key, default: Document, lib: Library): Option<Document> {
    if k in s then AsDict(s[k], lib) else Some(default)
  }

  /** An optional document is missing, null or a dictionary. */
  predicate Readable(s: Snapshot, k: Key, lib: Library) { Present(s, k).Some? ==> AsDict(s[k], lib).Some? }

  /** The required keys are there, and whatever must be a dictionary is one. */
  predicate Complete(s: Snapshot, lib: Library) {
    && Id in s && Version in s && Kind in s
    && DocumentOr(s, Semantic, map[], lib).Some? && DocumentOr(s, InputSchema, ANY_OBJECT, lib).Some?
    && Readable(s, OutputSchema, lib) && Readable(s, Forward, lib) && Readable(s, Compensation, lib)
    && Readable(s, ExecutionPolicy, lib)
  }

  function Read(s: Snapshot, active: bool, lib: Library): ActionDefinition
    requires Complete(s, lib)
  {
    ActionDefinition(
      AsText(s[Id], lib), AsText(s[Version], lib), AsText(s[Kind], lib),
      DocumentOr(s, Semantic, map[], lib).value, DocumentOr(s, InputSchema, ANY_OBJECT, lib).value,
      DocumentGiven(s, OutputSchema, lib), DocumentGiven(s, Forward, lib), DocumentGiven(s, Compensation, lib),
      TextGiven(s, Implementation, lib), TextGiven(s, ImplementationHash, lib),
      DocumentGiven(s, ExecutionPolicy, lib), active)
  }

  /** None stands for the error on a persisted definition that is incomplete or invalid. */
  function FromSnapshot(s: Snapshot, active: bool, lib: Library): Option<ActionDefinition> {
    if Complete(s, lib) && WellFormed(Read(s, active, lib), lib) then Some(Read(s, active, lib)) else None
  }

  /** The snapshot holds what the contract writes under each key. */
  ghost predicate Holds(s: Snapshot, d: ActionDefinition, k: Key) {
    (k in s <==> Written(d, k).Some?) && (k in s ==> s[k] == Written(d, k).value)
  }

  lemma SnapshotHolds(d: ActionDefinition, k: Key)
    ensures Holds(SnapshotOf(d), d, k)
  {
  }

  lemma ReadsDocument(s: Snapshot, d: ActionDefinition, k: Key, value: Option<Document>, lib: Library)
    requires Holds(s, d, k) && Written(d, k) == DocumentValue(value)
    ensures Readable(s, k, lib) && DocumentGiven(s, k, lib) == value
  {
  }

  lemma ReadsText(s: Snapshot, d: ActionDefinition, k: Key, value: Option<string>, lib: Library)
    requires Holds(s, d, k) && Written(d, k) == TextValue(value)
    ensures TextGiven(s, k, lib) == value
  {
  }

  /** Reading back what was persisted gives the contract again, apart from its active flag. */
  lemma FromSnapshotUndoesSnapshot(d: ActionDefinition, active: bool, lib: Library)
    requires WellFormed(d, lib)
    ensures FromSnapshot(SnapshotOf(d), active, lib) == Some(d.(active := active))
  {
    forall k ensures Holds(SnapshotOf(d), d, k) { SnapshotHolds(d, k); }
    ReadsBack(SnapshotOf(d), d, active, lib);
    assert WellFormed(d.(active := active), lib);
  }

  lemma ReadsBack(s: Snapshot, d: ActionDefinition, active: bool, lib: Library)
    requires forall k :: Holds(s, d, k)
    ensures Complete(s, lib) && Read(s, active, lib) == d.(active := active)
  {
    assert Holds(s, d, Id) && Holds(s, d, Version) && Holds(s, d, Kind) && Holds(s, d, Semantic) &&
        Holds(s, d, InputSchema);
    ReadsDocument(s, d, OutputSchema, d.outputSchema, lib);
    ReadsDocument(s, d, Forward, d.forward, lib);
    ReadsDocument(s, d, Compensation, d.compensation, lib);
    ReadsDocument(s, d, ExecutionPolicy, d.executionPolicy, lib);
    ReadsText(s, d, Implementation, d.implementation, lib);
    ReadsText(s, d, ImplementationHash, d.implementationHash, lib);
  }

  /** Every key is known and has the type it is written with. */
  ghost predicate Typed(s: Snapshot, k: Key) {
    k in s ==>
      match k
      case OtherKey(_) => false
      case Id | Version | Kind | Implementation | ImplementationHash => s[k].Text?
      case _ => s[k].Object?
  }

  /** In the other direction: a snapshot that can be read comes back unchanged if and only if it holds
      both defaulted keys, no unknown key, and no null or other value that reading converts. */
  lemma SnapshotUndoesFromSnapshotIff(s: Snapshot, active: bool, lib: Library)
    requires FromSnapshot(s, active, lib).Some?
    ensures SnapshotOf(FromSnapshot(s, active, lib).value) == s <==>
            Semantic in s && InputSchema in s && forall k :: Typed(s, k)
  {
    var back := SnapshotOf(FromSnapshot(s, active, lib).value);
    if back == s {
      forall k ensures Typed(s, k) { assert Typed(back, k); }
    }
    if Semantic in s && InputSchema in s && forall k :: Typed(s, k) {
      forall k ensures k in s <==> k in back { assert Typed(s, k) && Typed(back, k); }
      forall k | k in s ensures s[k] == back[k] { assert Typed(s, k); }
    }
  }

  // ---- the registry ----

  type Versions = map<(string, string), RegisteredAction>

  datatype State = State(versions: Versions, active: map<string, string>)

  datatype Error =
    | InvalidDefinition
    | NotHttp
    | VersionImmutable
    | MultipleActive
    | UnknownAction
    | VersionUnavailable
    | LegacyStep
    | HashMismatch
    | InvalidSnapshot
    | IdentityMismatch
    | ImplementationChanged

  datatype Result<T> = Ok(value: T) | Err(error: Error)

  function Conflicts(state: State, d: ActionDefinition): bool {
    (d.id, d.version) in state.versions && DigestOf(state.versions[(d.id, d.version)].definition) != DigestOf(d)
  }

  /** Both registrations end the same way: the version is stored before the active pointer is looked at. */
  function Stored(state: State, d: ActionDefinition, action: Action): (State, Option<Error>) {
    if Conflicts(state, d) then (state, Some(VersionImmutable))
    else
      var versions := state.versions[(d.id, d.version) := RegisteredAction(d, action)];
      if !d.active then (State(versions, state.active), None)
      else if d.id in state.active && state.active[d.id] != d.version
      then (State(versions, state.active), Some(MultipleActive))
      else (State(versions, state.active[d.id := d.version]), None)
  }

  /** What `register_runtime` is told about a contract. */
  datatype RuntimeContract = RuntimeContract(
    id: string,
    version: string,
    semantic: Option<Document>,
    inputSchema: Option<Document>,
    outputSchema: Option<Document>,
    executionPolicy: Option<Document>,
    active: bool)

  /** One call of `register_definition` or `register_runtime`. */
  datatype Registration =
    | RegisterHttp(definition: ActionDefinition)
    | RegisterClass(contract: RuntimeContract, code: ClassCode, instance: nat)

  const UNKNOWN_SEMANTIC: Document :=
    map["reversibility" := Text("implementation-defined"), "risk" := Text("unknown")]

  /** `value or default`: an empty dictionary counts as missing. */
  function OrElse(d: Option<Document>, default: Document): Document {
    if d.Some? && d.value != map[] then d.value else default
  }

  /** `register_runtime` fills in the kind, the implementation and its digest itself. */
  function RuntimeDefinition(c: RuntimeContract, code: ClassCode): ActionDefinition {
    ActionDefinition(c.id, c.version, "runtime",
                     OrElse(c.semantic, UNKNOWN_SEMANTIC), OrElse(c.inputSchema, ANY_OBJECT),
                     c.outputSchema, None, None, Some(code.name), Some(SourceDigest(code)), c.executionPolicy, c.active)
  }

  function Registered(state: State, r: Registration, lib: Library): (State, Option<Error>) {
    match r
    case RegisterHttp(d) =>
      if !WellFormed(d, lib) then (state, Some(InvalidDefinition))
      else if d.kind != "http" then (state, Some(NotHttp))
      else Stored(state, d, HttpAction(d.forward.value, d.compensation.value))
    case RegisterClass(contract, code, instance) =>
      var d := RuntimeDefinition(contract, code);
      if !WellFormed(d, lib) then (state, Some(InvalidDefinition))
      else Stored(state, d, RuntimeAction(code, instance))
  }

  function RegisterAll(state: State, rs: seq<Registration>, lib: Library): State {
    if rs == [] then state else Registered(RegisterAll(state, rs[..|rs| - 1], lib), rs[|rs| - 1], lib).0
  }

  /** The templates of a contract, or a class with the name and the source digest it records. */
  ghost predicate Carries(action: Action, d: ActionDefinition) {
    match action
    case HttpAction(forward, compensation) =>
      d.kind == "http" && d.forward == Some(forward) && d.compensation == Some(compensation)
    case RuntimeAction(code, _) =>
      d.kind == "runtime" && d.implementation == Some(code.name) && d.implementationHash == Some(SourceDigest(code))
  }

  /** The same templates, or classes with one name and one source digest. */
  ghost predicate SameCode(a: Action, b: Action) {
    match a
    case HttpAction(_, _) => a == b
    case RuntimeAction(code, _) =>
      b.RuntimeAction? && b.code.name == code.name && SourceDigest(b.code) == SourceDigest(code)
  }

  ghost predicate Faithful(versions: Versions, k: (string, string), lib: Library) {
    k in versions ==>
      var r := versions[k];
      WellFormed(r.definition, lib) && Carries(r.action, r.definition) && (r.definition.id, r.definition.version) == k
  }

  ghost predicate PointsToVersion(state: State, id: string) {
    id in state.active ==> (id, state.active[id]) in state.versions
  }

  ghost predicate Coherent(state: State, lib: Library) {
    (forall k :: Faithful(state.versions, k, lib)) && (forall id :: PointsToVersion(state, id))
  }

  ghost predicate SameVersion(later: Versions, earlier: Versions, k: (string, string)) {
    k in earlier ==>
      && k in later && DigestOf(later[k].definition) == DigestOf(earlier[k].definition)
      && SameCode(later[k].action, earlier[k].action)
  }

  ghost predicate SamePointer(later: State, earlier: State, id: string) {
    id in earlier.active ==> id in later.active && later.active[id] == earlier.active[id]
  }

  /** A registered version is never removed and never changes its hash, its templates or its class with
      that source digest; an active pointer never moves. */
  ghost predicate Extends(later: State, earlier: State) {
    (forall k :: SameVersion(later.versions, earlier.versions, k)) && (forall id :: SamePointer(later, earlier, id))
  }

  predicate SameContract(a: ActionDefinition, b: ActionDefinition) { a.(active := true) == b.(active := true) }

  lemma SnapshotFixesDefinition(a: ActionDefinition, b: ActionDefinition, lib: Library)
    requires SnapshotOf(a) == SnapshotOf(b) && WellFormed(a, lib) && WellFormed(b, lib)
    ensures SameContract(a, b)
  {
    FromSnapshotUndoesSnapshot(a, true, lib);
    FromSnapshotUndoesSnapshot(b, true, lib);
  }

  /** One digest, the same templates or a class with the same source digest. */
  lemma HashFixesCode(a: RegisteredAction, b: RegisteredAction, lib: Library)
    requires DigestOf(a.definition) == DigestOf(b.definition) && WellFormed(a.definition, lib) &&
             WellFormed(b.definition, lib)
    requires Carries(a.action, a.definition) && Carries(b.action, b.definition)
    ensures SameCode(a.action, b.action)
  {
    SnapshotFixesDefinition(a.definition, b.definition, lib);
  }

  lemma StoredExtends(state: State, d: ActionDefinition, action: Action, lib: Library)
    requires Coherent(state, lib) && WellFormed(d, lib) && Carries(action, d)
    ensures Coherent(Stored(state, d, action).0, lib) && Extends(Stored(state, d, action).0, state)
  {
    var later := Stored(state, d, action).0;
    var key := (d.id, d.version);
    forall k ensures Faithful(later.versions, k, lib) && SameVersion(later.versions, state.versions, k) {
      assert Faithful(state.versions, k, lib);
      if k == key && !Conflicts(state, d) && key in state.versions {
        HashFixesCode(RegisteredAction(d, action), state.versions[key], lib);
      }
    }
    forall id ensures PointsToVersion(later, id) && SamePointer(later, state, id) {
      assert PointsToVersion(state, id);
    }
  }

  lemma RegisteredExtends(state: State, r: Registration, lib: Library)
    requires Coherent(state, lib)
    ensures Coherent(Registered(state, r, lib).0, lib) && Extends(Registered(state, r, lib).0, state)
  {
    match r
    case RegisterHttp(d) =>
      if WellFormed(d, lib) && d.kind == "http" {
        StoredExtends(state, d, HttpAction(d.forward.value, d.compensation.value), lib);
      }
    case RegisterClass(contract, code, instance) =>
      var d := RuntimeDefinition(contract, code);
      if WellFormed(d, lib) { StoredExtends(state, d, RuntimeAction(code, instance), lib); }
  }

  /** Immutability over whole runs, refused registrations included. */
  lemma {:induction false} VersionsAreImmutable(state: State, rs: seq<Registration>, lib: Library)
    requires Coherent(state, lib)
    ensures Coherent(RegisterAll(state, rs, lib), lib) && Extends(RegisterAll(state, rs, lib), state)
  {
    if rs != [] {
      var before := RegisterAll(state, rs[..|rs| - 1], lib);
      var after := RegisterAll(state, rs, lib);
      VersionsAreImmutable(state, rs[..|rs| - 1], lib);
      RegisteredExtends(before, rs[|rs| - 1], lib);
      forall k ensures SameVersion(after.versions, state.versions, k) {
        assert SameVersion(before.versions, state.versions, k) && SameVersion(after.versions, before.versions, k);
      }
      forall id ensures SamePointer(after, state, id) {
        assert SamePointer(before, state, id) && SamePointer(after, before, id);
      }
    }
  }

  ghost predicate Sourced(action: Action) { action.RuntimeAction? && action.code.source.Some? }

  /** Where the source is found before and after, it is the same source under the same name. */
  lemma SourceIsKept(state: State, rs: seq<Registration>, k: (string, string), lib: Library)
    requires Coherent(state, lib) && k in state.versions && Sourced(state.versions[k].action)
    ensures var later := RegisterAll(state, rs, lib).versions;
      k in later && (Sourced(later[k].action) ==>
        later[k].action.code.(id := state.versions[k].action.code.id) == state.versions[k].action.code)
  {
    VersionsAreImmutable(state, rs, lib);
    assert SameVersion(RegisterAll(state, rs, lib).versions, state.versions, k);
  }

  /** Without a source only the name is digested: any class of that name replaces the registered one. */
  lemma SourcelessClassIsReplaced(state: State, c: RuntimeContract, a: ClassCode, b: ClassCode, i: nat, j: nat,
                                  lib: Library)
    requires WellFormed(RuntimeDefinition(c, a), lib) && (c.id, c.version) !in state.versions && !c.active
    requires a.source.None? && b.source.None? && a.name == b.name
    ensures var once := Registered(state, RegisterClass(c, a, i), lib).0;
      && (c.id, c.version) in once.versions && once.versions[(c.id, c.version)].action == RuntimeAction(a, i)
      && Registered(once, RegisterClass(c, b, j), lib).0.versions[(c.id, c.version)].action == RuntimeAction(b, j)
  {
  }

  /** One is the other's source, or both have none: as far as a digest can tell, the same class. */
  predicate SourcesAgree(a: ClassCode, b: ClassCode) {
    a.source == b.source || (a.source.None? && b.source == Some(a.name)) || (b.source.None? && a.source == Some(b.name))
  }

  /** Contracts that agree in everything but the class and the active flag. */
  predicate RestAgrees(a: ActionDefinition, b: ActionDefinition) {
    a.(implementation := None, implementationHash := None, active := true)
    == b.(implementation := None, implementationHash := None, active := true)
  }

  lemma SameDigestIffSame(a: ActionDefinition, b: ActionDefinition, lib: Library)
    requires WellFormed(a, lib) && WellFormed(b, lib)
    ensures DigestOf(a) == DigestOf(b) <==> SameContract(a, b)
  {
    if DigestOf(a) == DigestOf(b) { SnapshotFixesDefinition(a, b, lib); }
    if SameContract(a, b) { assert forall k :: Written(a, k) == Written(b, k); }
  }

  /** Registering a class for a version that exists replaces its entry if and only if the digests of the
      definitions agree: the rest of the contract is the same, and the class has the same name and, as far
      as the sources are found, the same source. */
  lemma RuntimeReplacedIff(state: State, c: RuntimeContract, code: ClassCode, instance: nat, lib: Library)
    requires Coherent(state, lib) && (c.id, c.version) in state.versions && WellFormed(RuntimeDefinition(c, code), lib)
    ensures var k, d := (c.id, c.version), RuntimeDefinition(c, code);
      var before, now := state.versions[k], Registered(state, RegisterClass(c, code, instance), lib).0.versions;
      && k in now
      && (now[k] == RegisteredAction(d, RuntimeAction(code, instance)) <==> DigestOf(before.definition) == DigestOf(d))
      && (now[k] == RegisteredAction(d, RuntimeAction(code, instance)) <==>
            RestAgrees(before.definition, d) && before.action.RuntimeAction? && before.action.code.name == code.name
            && SourcesAgree(before.action.code, code))
      && (DigestOf(before.definition) != DigestOf(d) ==> now == state.versions)
  {
    var k, d := (c.id, c.version), RuntimeDefinition(c, code);
    assert Faithful(state.versions, k, lib);
    SameDigestIffSame(state.versions[k].definition, d, lib);
    ClassAgreesIff(state.versions[k], d, code);
  }

  lemma ClassAgreesIff(before: RegisteredAction, d: ActionDefinition, code: ClassCode)
    requires Carries(before.action, before.definition) && Carries(RuntimeAction(code, 0), d)
    ensures SameContract(before.definition, d) <==>
            RestAgrees(before.definition, d) && before.action.RuntimeAction? && before.action.code.name == code.name
            && SourcesAgree(before.action.code, code)
  {
  }

  /** What `register_definition` and `register_runtime` do with a valid contract: a version of another digest
      is refused and changes nothing. Any other version is there from now on; an active one is what the
      action resolves to, unless another version is active already, and nothing else changes. */
  lemma RegistrationMeaning(state: State, d: ActionDefinition, action: Action)
    requires d.version != ""
    ensures var (after, error) := Stored(state, d, action);
      var k := (d.id, d.version);
      var refused := k in state.versions && SnapshotOf(state.versions[k].definition) != SnapshotOf(d);
      var occupied := d.active && d.id in state.active && state.active[d.id] != d.version;
      && error == (if refused then Some(VersionImmutable) else if occupied then Some(MultipleActive) else None)
      && (refused ==> after == state)
      && (!refused ==> Resolved(after, d.id, Some(d.version)) == Ok(RegisteredAction(d, action)))
      && (error.None? && d.active ==> Resolved(after, d.id, None) == Ok(RegisteredAction(d, action)))
      && (error.Some? || !d.active ==> after.active == state.active)
      && (forall id :: id != d.id ==> (id in after.active <==> id in state.active))
      && (forall id :: id != d.id && id in state.active ==> after.active[id] == state.active[id])
      && (forall key :: key != k ==> (key in after.versions <==> key in state.versions))
      && (forall key :: key != k && key in state.versions ==> after.versions[key] == state.versions[key])
  {
  }

  /** Which contracts are valid, and what a runtime contract is completed to. */
  lemma ValidityMeaning(state: State, r: Registration, lib: Library)
    ensures var error := Registered(state, r, lib).1;
      var d := match r case RegisterHttp(d) => d case RegisterClass(c, code, _) => RuntimeDefinition(c, code);
      && (error == Some(InvalidDefinition) <==>
            || d.id == "" || d.version == "" || (d.kind != "http" && d.kind != "runtime")
            || (d.kind == "http" && (d.forward.None? || d.compensation.None?))
            || !lib.schemaOk(d.inputSchema) || (d.outputSchema.Some? && !lib.schemaOk(d.outputSchema.value))
            || (d.executionPolicy.Some? && !lib.policyOk(d.executionPolicy.value)))
      && (error == Some(NotHttp) ==> r.RegisterHttp? && d.kind == "runtime")
      && (error == Some(InvalidDefinition) || error == Some(NotHttp) ==> Registered(state, r, lib).0 == state)
      && (r.RegisterHttp? && d.kind == "runtime" ==> error == Some(InvalidDefinition) || error == Some(NotHttp))
      && (match r
          case RegisterHttp(_) => true
          case RegisterClass(c, code, _) =>
            && d.id == c.id && d.version == c.version && d.kind == "runtime" && d.active == c.active
            && d.outputSchema == c.outputSchema && d.executionPolicy == c.executionPolicy
            && d.implementation == Some(code.name)
            && d.implementationHash == (if code.source.Some? then code.source else Some(code.name))
            && (c.semantic.Some? && c.semantic.value.Keys != {} ==> d.semantic == c.semantic.value)
            && (c.semantic.None? || c.semantic.value.Keys == {} ==>
                  "risk" in d.semantic && d.semantic["risk"] == Text("unknown"))
            && (c.inputSchema.Some? && c.inputSchema.value.Keys != {} ==> d.inputSchema == c.inputSchema.value)
            && (c.inputSchema.None? || c.inputSchema.value.Keys == {} ==>
                  d.inputSchema.Keys == {"type"} && d.inputSchema["type"] == Text("object")))
  {
    match r
    case RegisterHttp(_) =>
    case RegisterClass(c, _, _) =>
      NoKeysIsEmpty(c.semantic);
      NoKeysIsEmpty(c.inputSchema);
  }

  lemma NoKeysIsEmpty(d: Option<Document>)
    ensures d.Some? ==> (d.value.Keys == {} <==> d.value == map[])
  {
    if d.Some? && d.value.Keys == {} { assert d.value == map[]; }
  }

  // ---- resolution ----

  function Resolved(state: State, id: string, version: Option<string>): Result<RegisteredAction> {
    if version.None? || version.value == "" then
      if id !in state.active then Err(UnknownAction)
      else if (id, state.active[id]) in state.versions then Ok(state.versions[(id, state.active[id])])
      else Err(VersionUnavailable)
    else if (id, version.value) in state.versions then Ok(state.versions[(id, version.value)])
    else Err(VersionUnavailable)
  }

  /** The action metadata of a persisted step; None stands for a missing column. */
  datatype StepMeta = StepMeta(action: string, definition: Option<Snapshot>, hash: Option<Digest>,
                               version: Option<string>)

  function MetaOf(d: ActionDefinition): StepMeta {
    StepMeta(d.id, Some(SnapshotOf(d)), Some(DigestOf(d)), Some(d.version))
  }

  predicate Legacy(m: StepMeta) { m.definition.None? || m.hash.None? || m.version.None? }

  function ResolvedForStep(state: State, m: StepMeta, allowLegacy: bool, lib: Library): Result<RegisteredAction> {
    if Legacy(m) then
      if allowLegacy then Resolved(state, m.action, None) else Err(LegacyStep)
    else if Sha(m.definition.value) != m.hash.value then Err(HashMismatch)
    else
      var d := FromSnapshot(m.definition.value, true, lib);
      if d.None? then Err(InvalidSnapshot)
      else if d.value.id != m.action || Some(d.value.version) != m.version then Err(IdentityMismatch)
      else if d.value.kind == "http" then
        Ok(RegisteredAction(d.value, HttpAction(d.value.forward.value, d.value.compensation.value)))
      else
        var current := Resolved(state, d.value.id, Some(d.value.version));
        if current.Err? then current
        else if DigestOf(current.value.definition) != m.hash.value then Err(ImplementationChanged)
        else current
  }

  /** Whatever the registry holds now, a step that still carries the digest it was journaled with is
      recovered under exactly the contract of that time, and its templates or a class with its source
      digest, or not at all. */
  lemma RecoveryUsesJournaledContract(state: State, d: ActionDefinition, m: StepMeta, allowLegacy: bool, lib: Library)
    requires Coherent(state, lib) && WellFormed(d, lib)
    requires m.hash == Some(DigestOf(d)) && !Legacy(m)
    ensures var r := ResolvedForStep(state, m, allowLegacy, lib);
      r.Ok? ==>
        && SameContract(r.value.definition, d) && r.value.definition.executionPolicy == d.executionPolicy
        && Carries(r.value.action, d)
  {
    var r := ResolvedForStep(state, m, allowLegacy, lib);
    if r.Ok? {
      assert m.definition.value == SnapshotOf(d);
      FromSnapshotUndoesSnapshot(d, true, lib);
      if d.kind == "http" {
        assert r.value.definition == d.(active := true);
      } else {
        assert Faithful(state.versions, (d.id, d.version), lib);
        SnapshotFixesDefinition(r.value.definition, d, lib);
      }
    }
  }

  /** A step with all its metadata is recovered exactly when its snapshot still has the digest stored, can be
      read and names the step's action and version, and its contract is HTTP or the registered version of
      the same digest. */
  lemma RecoveredIff(state: State, m: StepMeta, allowLegacy: bool, lib: Library)
    requires Coherent(state, lib) && m.definition.Some? && m.hash.Some? && m.version.Some?
    ensures var s := m.definition.value;
      ResolvedForStep(state, m, allowLegacy, lib).Ok? <==>
        && m.hash.value == Sha(s) && FromSnapshot(s, true, lib).Some?
        && var d := FromSnapshot(s, true, lib).value;
           && d.id == m.action && d.version == m.version.value
           && (d.kind == "http" ||
               ((d.id, d.version) in state.versions &&
                DigestOf(state.versions[(d.id, d.version)].definition) == m.hash.value))
  {
    if FromSnapshot(m.definition.value, true, lib).Some? {
      assert WellFormed(FromSnapshot(m.definition.value, true, lib).value, lib);
    }
  }

  /** An untouched step is recoverable exactly when its contract is HTTP or the very same runtime
      version is registered. */
  lemma RecoverableIff(state: State, d: ActionDefinition, allowLegacy: bool, lib: Library)
    requires Coherent(state, lib) && WellFormed(d, lib)
    ensures ResolvedForStep(state, MetaOf(d), allowLegacy, lib).Ok? <==>
            d.kind == "http" ||
            ((d.id, d.version) in state.versions &&
             DigestOf(state.versions[(d.id, d.version)].definition) == DigestOf(d))
  {
    FromSnapshotUndoesSnapshot(d, true, lib);
  }

  /** A contract that was registered when its step was journaled stays recoverable whatever is
      registered, or refused, afterwards. */
  lemma RegisteredStaysRecoverable(state: State, id: string, version: string, rs: seq<Registration>, allowLegacy: bool,
                                   lib: Library)
    requires Coherent(state, lib) && (id, version) in state.versions
    ensures var d := state.versions[(id, version)].definition;
      ResolvedForStep(RegisterAll(state, rs, lib), MetaOf(d), allowLegacy, lib).Ok?
  {
    VersionsAreImmutable(state, rs, lib);
    assert Faithful(state.versions, (id, version), lib);
    assert SameVersion(RegisterAll(state, rs, lib).versions, state.versions, (id, version));
    RecoverableIff(RegisterAll(state, rs, lib), state.versions[(id, version)].definition, allowLegacy, lib);
  }

  /** A step without its snapshot, digest or version is recovered under whatever version is active
      now, and only when legacy recovery is switched on. */
  lemma LegacyRecoversUnderActiveIff(state: State, m: StepMeta, allowLegacy: bool, lib: Library)
    requires Coherent(state, lib) && Legacy(m)
    ensures ResolvedForStep(state, m, allowLegacy, lib).Ok? <==> allowLegacy && m.action in state.active
    ensures ResolvedForStep(state, m, allowLegacy, lib).Ok? ==>
      ResolvedForStep(state, m, allowLegacy, lib).value.definition.version == state.active[m.action]
  {
    assert PointsToVersion(state, m.action);
    if m.action in state.active { assert Faithful(state.versions, (m.action, state.active[m.action]), lib); }
  }

  class ActionRegistry {
    var versions: Versions
    var active: map<string, string>
    const library: Library
    const allowLegacyRecovery: bool

    function Now(): State reads this { State(versions, active) }

    ghost predicate Valid() reads this { Coherent(Now(), library) }

    constructor (library: Library, allowLegacyRecovery: bool)
      ensures Valid() && versions == map[] && active == map[]
      ensures this.library == library && this.allowLegacyRecovery == allowLegacyRecovery
    {
      versions, active := map[], map[];
      this.library, this.allowLegacyRecovery := library, allowLegacyRecovery;
    }

    method RegisterDefinition(definition: ActionDefinition) returns (error: Option<Error>)
      requires Valid()
      modifies this
      ensures (Now(), error) == Registered(old(Now()), RegisterHttp(definition), library)
      ensures Valid() && Extends(Now(), old(Now()))
    {
      RegisteredExtends(Now(), RegisterHttp(definition), library);
      if !WellFormed(definition, library) { return Some(InvalidDefinition); }
      if definition.kind != "http" { return Some(NotHttp); }
      var key := (definition.id, definition.version);
      if key in versions && DigestOf(versions[key].definition) != DigestOf(definition) {
        return Some(VersionImmutable);
      }
      var action := HttpAction(definition.forward.value, definition.compensation.value);
      versions := versions[key := RegisteredAction(definition, action)];
      if definition.active {
        if definition.id in active && active[definition.id] != definition.version { return Some(MultipleActive); }
        active := active[definition.id := definition.version];
      }
      error := None;
    }

    method RegisterRuntime(contract: RuntimeContract, code: ClassCode, instance: nat) returns (error: Option<Error>)
      requires Valid()
      modifies this
      ensures (Now(), error) == Registered(old(Now()), RegisterClass(contract, code, instance), library)
      ensures Valid() && Extends(Now(), old(Now()))
    {
      RegisteredExtends(Now(), RegisterClass(contract, code, instance), library);
      var definition := RuntimeDefinition(contract, code);
      if !WellFormed(definition, library) { return Some(InvalidDefinition); }
      var key := (definition.id, definition.version);
      if key in versions && DigestOf(versions[key].definition) != DigestOf(definition) {
        return Some(VersionImmutable);
      }
      versions := versions[key := RegisteredAction(definition, RuntimeAction(code, instance))];
      if definition.active {
        if definition.id in active && active[definition.id] != definition.version { return Some(MultipleActive); }
        active := active[definition.id := definition.version];
      }
      error := None;
    }

    /** Success means the contract journaled with the step, and the code it records. */
    method ResolveForStep(m: StepMeta) returns (r: Result<RegisteredAction>)
      requires Valid()
      ensures r == ResolvedForStep(Now(), m, allowLegacyRecovery, library)
      ensures forall d :: r.Ok? && !Legacy(m) && m.hash == Some(DigestOf(d)) && WellFormed(d, library) ==>
        SameContract(r.value.definition, d) && Carries(r.value.action, d)
    {
      forall d | !Legacy(m) && m.hash == Some(DigestOf(d)) && WellFormed(d, library)
        ensures var r := ResolvedForStep(Now(), m, allowLegacyRecovery, library);
          r.Ok? ==> SameContract(r.value.definition, d) && Carries(r.value.action, d)
      {
        RecoveryUsesJournaledContract(Now(), d, m, allowLegacyRecovery, library);
      }
      if Legacy(m) {
        if !allowLegacyRecovery { return Err(LegacyStep); }
        return Resolved(Now(), m.action, None);
      }
      if Sha(m.definition.value) != m.hash.value { return Err(HashMismatch); }
      var d := FromSnapshot(m.definition.value, true, library);
      if d.None? { return Err(InvalidSnapshot); }
      if d.value.id != m.action || Some(d.value.version) != m.version { return Err(IdentityMismatch); }
      if d.value.kind == "http" {
        return Ok(RegisteredAction(d.value, HttpAction(d.value.forward.value, d.value.compensation.value)));
      }
      var current := Resolved(Now(), d.value.id, Some(d.value.version));
      if current.Ok? && DigestOf(current.value.definition) != m.hash.value { return Err(ImplementationChanged); }
      r := current;
    }
  }
}
