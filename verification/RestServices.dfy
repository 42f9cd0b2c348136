/**
  REST calls as services with inferred compensation (`pkg/orchestration/api_rest.go`).

  The pure part gives each call its meaning on a keyed store; the classes are the objects the
  orchestrator holds, and every method is proved to compute exactly that meaning.
 */
module RestServices {
  import opened Maybe

  datatype Object = Object(name: string, body: int)

  /** A keyed store: reading a name gives an object of that name. */
  type Store = m: map<string, Object> | forall n :: n in m ==> m[n].name == n

  datatype Action = Get | Post | Put | Delete | List

  datatype Error = NotFound | AlreadyExists | CallLost

  /** A call may go through, fail before it took effect, or take full effect and still report an error. */
  datatype Fault = Clean | LostBefore | LostAfter

  datatype Service = Service(action: Action, requestName: string, payload: Object)

  function Lookup(st: Store, n: string): Option<Object> {
    if n in st then Some(st[n]) else None
  }

  lemma SameLookups(a: Store, b: Store)
    requires forall n :: Lookup(a, n) == Lookup(b, n)
    ensures a == b
  {
    forall n ensures n in a <==> n in b {
      assert Lookup(a, n) == Lookup(b, n);
    }
    forall n | n in a ensures a[n] == b[n] {
      assert Lookup(a, n) == Lookup(b, n);
    }
  }

  // ---- the API contract -----------------------------------------------------------------

  function PostStore(st: Store, obj: Object): Store {
    if obj.name in st then st else st[obj.name := obj]
  }

  function PutStore(st: Store, obj: Object): Store {
    if obj.name in st then st[obj.name := obj] else st
  }

  function DeleteStore(st: Store, n: string): Store {
    st - {n}
  }

  function MustExist(st: Store, n: string): Option<Error> {
    if n in st then None else Some(NotFound)
  }

  function MustNotExist(st: Store, n: string): Option<Error> {
    if n in st then Some(AlreadyExists) else None
  }

  // ---- Run, Check and Rollback on values ------------------------------------------------

  /** The store after the call takes full effect. */
  function Effect(s: Service, st: Store): Store {
    match s.action
    case Post => PostStore(st, s.payload)
    case Put => PutStore(st, s.payload)
    case Delete => DeleteStore(st, s.requestName)
    case Get => st
    case List => st
  }

  /** What the API answers when the call is not lost. */
  function Answer(s: Service, st: Store): Option<Error> {
    match s.action
    case Post => MustNotExist(st, s.payload.name)
    case Put => MustExist(st, s.payload.name)
    case Delete => MustExist(st, s.requestName)
    case Get => MustExist(st, s.requestName)
    case List => None
  }

  function RunStore(s: Service, st: Store, fault: Fault): Store {
    if fault == LostBefore then st else Effect(s, st)
  }

  function RunError(s: Service, st: Store, fault: Fault): Option<Error> {
    if fault == Clean then Answer(s, st) else Some(CallLost)
  }

  function CheckError(s: Service, st: Store): Option<Error> {
    match s.action
    case Get => None
    case List => None
    case Post => MustNotExist(st, s.requestName)
    case Put => MustExist(st, s.requestName)
    case Delete => MustExist(st, s.requestName)
  }

  /** The backup a service holds after Check: only updates and deletions write it. */
  function CheckBackup(s: Service, st: Store, backup: Option<Object>): Option<Object> {
    if s.action == Put || s.action == Delete then Lookup(st, s.requestName) else backup
  }

  function RollbackStore(s: Service, backup: Option<Object>, st: Store): Store {
    match s.action
    case Put => if backup.Some? then PutStore(st, backup.value) else st
    case Post => DeleteStore(st, s.payload.name)
    case Delete => if backup.Some? then PostStore(st, backup.value) else st
    case Get => st
    case List => st
  }

  function RollbackError(s: Service, backup: Option<Object>, st: Store): Option<Error> {
    match s.action
    case Put => if backup.Some? then MustExist(st, backup.value.name) else Some(CallLost)
    case Post => MustExist(st, s.payload.name)
    case Delete => if backup.Some? then MustNotExist(st, backup.value.name) else Some(CallLost)
    case Get => None
    case List => None
  }

  // ---- a service undoes itself ----------------------------------------------------------

  /** Check looks at the requested name, Run and Rollback at the name inside the payload. */
  predicate NamesMatch(s: Service) {
    s.action == Post || s.action == Put ==> s.requestName == s.payload.name
  }

  /** The name a service may change, if any. */
  function Writes(s: Service): Option<string> {
    match s.action
    case Post => Some(s.payload.name)
    case Put => Some(s.payload.name)
    case Delete => Some(s.requestName)
    case Get => None
    case List => None
  }

  /** What that name holds once the call took effect. */
  function Target(s: Service): Option<Object> {
    if s.action == Post || s.action == Put then Some(s.payload) else None
  }

  /** Check succeeded on `base` and left this backup behind. */
  predicate Prepared(s: Service, base: Store, backup: Option<Object>) {
    && CheckError(s, base).None?
    && (s.action == Put || s.action == Delete ==> backup == Lookup(base, s.requestName))
  }

  ghost predicate UndoesEveryRun(s: Service) {
    forall st: Store, fault, stale ::
      CheckError(s, st).None? ==>
        RollbackStore(s, CheckBackup(s, st, stale), RunStore(s, st, fault)) == st
  }

  /**
    Check, Run (clean or lost either way) and Rollback are the identity on every store that passes
    the check exactly when the requested name and the payload's name agree.
   */
  lemma UndoExactlyWhenNamesMatch(s: Service)
    ensures UndoesEveryRun(s) <==> NamesMatch(s)
  {
    if NamesMatch(s) {
      forall st: Store, fault, stale | CheckError(s, st).None?
        ensures RollbackStore(s, CheckBackup(s, st, stale), RunStore(s, st, fault)) == st
      {
        UndoOne(s, st, fault, stale);
      }
    } else {
      var b := s.payload.name;
      var other := Object(b, s.payload.body + 1);
      var st: Store := if s.action == Post then map[b := other]
                       else map[b := other, s.requestName := Object(s.requestName, 0)];
      assert CheckError(s, st).None?;
      assert b in st && Lookup(st, b) == Some(other);
      assert Lookup(RollbackStore(s, CheckBackup(s, st, None), RunStore(s, st, Clean)), b) != Some(other);
    }
  }

  lemma UndoOne(s: Service, st: Store, fault: Fault, stale: Option<Object>)
    requires NamesMatch(s) && CheckError(s, st).None?
    ensures RollbackStore(s, CheckBackup(s, st, stale), RunStore(s, st, fault)) == st
  {
    var end := RollbackStore(s, CheckBackup(s, st, stale), RunStore(s, st, fault));
    forall n ensures Lookup(end, n) == Lookup(st, n) {}
    SameLookups(end, st);
  }

  // ---- the objects ----------------------------------------------------------------------

  class Api {
    var objects: Store

    constructor (objects: Store)
      ensures this.objects == objects
    {
      this.objects := objects;
    }

    method GetObject(name: string) returns (r: Option<Object>, err: Option<Error>)
      ensures name in objects ==> r == Some(objects[name]) && err == None
      ensures name !in objects ==> r == None && err == Some(NotFound)
    {
      if name in objects {
        return Some(objects[name]), None;
      }
      return None, Some(NotFound);
    }

    method PostObject(obj: Object, fault: Fault) returns (err: Option<Error>)
      modifies this
      ensures objects == if fault == LostBefore then old(objects) else PostStore(old(objects), obj)
      ensures fault == LostBefore || obj.name in old(objects) ==> objects == old(objects)
      ensures fault != LostBefore && obj.name !in old(objects) ==> objects == old(objects)[obj.name := obj]
      ensures fault == Clean ==> err == if obj.name in old(objects) then Some(AlreadyExists) else None
      ensures fault != Clean ==> err == Some(CallLost)
    {
      if fault == LostBefore {
        return Some(CallLost);
      }
      if obj.name in objects {
        return if fault == Clean then Some(AlreadyExists) else Some(CallLost);
      }
      objects := objects[obj.name := obj];
      err := if fault == Clean then None else Some(CallLost);
    }

    method PutObject(obj: Object, fault: Fault) returns (err: Option<Error>)
      modifies this
      ensures objects == if fault == LostBefore then old(objects) else PutStore(old(objects), obj)
      ensures fault == LostBefore || obj.name !in old(objects) ==> objects == old(objects)
      ensures fault != LostBefore && obj.name in old(objects) ==> objects == old(objects)[obj.name := obj]
      ensures fault == Clean ==> err == if obj.name in old(objects) then None else Some(NotFound)
      ensures fault != Clean ==> err == Some(CallLost)
    {
      if fault == LostBefore {
        return Some(CallLost);
      }
      if obj.name !in objects {
        return if fault == Clean then Some(NotFound) else Some(CallLost);
      }
      objects := objects[obj.name := obj];
      err := if fault == Clean then None else Some(CallLost);
    }

    method DeleteObject(name: string, fault: Fault) returns (err: Option<Error>)
      modifies this
      ensures objects == if fault == LostBefore then old(objects) else DeleteStore(old(objects), name)
      ensures objects == if fault == LostBefore then old(objects) else old(objects) - {name}
      ensures fault == Clean ==> err == if name in old(objects) then None else Some(NotFound)
      ensures fault != Clean ==> err == Some(CallLost)
    {
      if fault == LostBefore {
        return Some(CallLost);
      }
      if name !in objects {
        assert objects - {name} == objects;
        return if fault == Clean then Some(NotFound) else Some(CallLost);
      }
      objects := objects - {name};
      err := if fault == Clean then None else Some(CallLost);
    }
  }

  class RestApiService {
    const api: Api
    const action: Action
    const requestName: string
    const payload: Object
    var backup: Option<Object>
    var response: Option<Object>

    constructor (api: Api, action: Action, requestName: string, payload: Object)
      ensures this.api == api && backup == None && response == None
      ensures Request() == Service(action, requestName, payload)
    {
      this.api, this.action, this.requestName, this.payload := api, action, requestName, payload;
      backup, response := None, None;
    }

    function Request(): Service {
      Service(action, requestName, payload)
    }

    method Check() returns (err: Option<Error>)
      modifies this`backup
      ensures err == CheckError(Request(), api.objects)
      ensures err.None? <==>
        || action == Get || action == List
        || (action == Post && requestName !in api.objects)
        || ((action == Put || action == Delete) && requestName in api.objects)
      ensures err.Some? ==> err.value == if action == Post then AlreadyExists else NotFound
      ensures (action == Put || action == Delete) && requestName in api.objects ==>
        backup == Some(api.objects[requestName])
      ensures action == Get || action == List || action == Post ==> backup == old(backup)
      ensures backup == CheckBackup(Request(), api.objects, old(backup))
      ensures NamesMatch(Request()) && err.None? ==> Prepared(Request(), api.objects, backup)
    {
      if action == Get || action == List {
        return None;
      }
      var found, getErr := api.GetObject(requestName);
      if action == Post {
        if getErr.None? {
          return Some(AlreadyExists);
        }
        return None;
      }
      backup := found;
      err := getErr;
    }

    method Run(fault: Fault) returns (err: Option<Error>)
      modifies this`response, api
      ensures api.objects == RunStore(Request(), old(api.objects), fault)
      ensures err == RunError(Request(), old(api.objects), fault)
      ensures fault == LostBefore ==> api.objects == old(api.objects)
      ensures fault != LostBefore && action == Post ==>
        api.objects == if payload.name in old(api.objects) then old(api.objects)
                       else old(api.objects)[payload.name := payload]
      ensures fault != LostBefore && action == Put ==>
        api.objects == if payload.name in old(api.objects) then old(api.objects)[payload.name := payload]
                       else old(api.objects)
      ensures fault != LostBefore && action == Delete ==> api.objects == old(api.objects) - {requestName}
      ensures action == Get || action == List ==> api.objects == old(api.objects)
      ensures fault == Clean ==> (err.None? <==>
        match action
        case Post => payload.name !in old(api.objects)
        case Put => payload.name in old(api.objects)
        case Delete => requestName in old(api.objects)
        case Get => requestName in old(api.objects)
        case List => true)
      ensures fault != Clean ==> err == Some(CallLost)
      ensures response == if action == Get && fault == Clean then Lookup(old(api.objects), requestName) else None
    {
      response := None;
      if action == Get {
        var found, getErr := api.GetObject(requestName);
        if fault == Clean {
          response := found;
          return getErr;
        }
        return Some(CallLost);
      } else if action == Post {
        err := api.PostObject(payload, fault);
      } else if action == Put {
        err := api.PutObject(payload, fault);
      } else if action == Delete {
        err := api.DeleteObject(requestName, fault);
      } else {
        err := if fault == Clean then None else Some(CallLost);
      }
    }

    method Rollback() returns (err: Option<Error>)
      modifies api
      ensures api.objects == RollbackStore(Request(), backup, old(api.objects))
      ensures err == RollbackError(Request(), backup, old(api.objects))
      ensures action == Get || action == List ==> err.None? && api.objects == old(api.objects)
      ensures action == Post ==> api.objects == old(api.objects) - {payload.name}
      ensures action == Post ==> (err.None? <==> payload.name in old(api.objects))
      ensures action == Put || action == Delete ==> (err.None? <==>
        backup.Some? && (action == Put <==> backup.value.name in old(api.objects)))
      ensures action == Put || action == Delete ==>
        api.objects == if err.None? then old(api.objects)[backup.value.name := backup.value] else old(api.objects)
    {
      if action == Put {
        if backup.None? {
          return Some(CallLost);
        }
        err := api.PutObject(backup.value, Clean);
        return;
      }
      if action == Post {
        err := api.DeleteObject(payload.name, Clean);
        return;
      }
      if action == Delete {
        if backup.None? {
          return Some(CallLost);
        }
        err := api.PostObject(backup.value, Clean);
        return;
      }
      return None;
    }
  }
}
