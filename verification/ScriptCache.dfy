/**
 * The script cache validated by content length (src/scripting/exec_cache.py, called from
 * src/scripting/server.py:173-223 and 485-514).
 *
 * A function object is represented by the source it was compiled from.  Each function
 * below is the code between two awaits; the transition system interleaves such segments
 * of any number of coroutines with the background Redis writes and with other servers.
 */
module ScriptCache {
  import opened Common

  datatype Key = Exec(path: string) | Lib(path: string)

  /** The object exec leaves in `main`. */
  datatype Func = Func(source: string)

  /** A Redis write running as a background task. */
  datatype Write = SetNx(key: Key, content: string) | Set(key: Key, content: string)

  /** Python's len of the text, used where a script is set. */
  function CharLen(content: string): nat {
    |content|
  }

  /** Python's len of the bytes, used where a script is read from Redis. */
  function ByteLen(content: string): nat {
    |Utf8(content)|
  }

  /** One server's memory, its outstanding writes and its script files. */
  datatype Cache = Cache(
    table: map<Key, Option<Func>>,
    lens: map<Key, nat>,
    background: seq<Write>,
    files: map<string, string>)

  datatype Outcome = Returned(func: Option<Func>) | NoMain | KeyError

  datatype Loaded = Changed(changed: bool) | NotFound

  function Lookup(c: Cache, key: Key): Option<Func> {
    if key in c.table then c.table[key] else None
  }

  /** `get` after its await, lines 26-40; `compiles` says whether exec defines `main`. */
  function Get(c: Cache, compiles: string -> bool, key: Key, reply: Option<string>): (Cache, Outcome) {
    match reply
    case None => (c, Returned(None))
    case Some(content) =>
      if key in c.lens && c.lens[key] == ByteLen(content) then (c, Returned(Lookup(c, key)))
      else if !compiles(content) then (c, NoMain)
      else
        (c.(table := c.table[key := Some(Func(content))], lens := c.lens[key := ByteLen(content)]),
         Returned(Some(Func(content))))
  }

  /** `setdefault`, lines 62-75. */
  function SetDefault(c: Cache, key: Key, func: Func, content: string): Cache {
    c.(background := if key !in c.table then c.background + [SetNx(key, content)] else c.background,
       table := if key in c.table then c.table else c.table[key := Some(func)],
       lens := if key in c.lens then c.lens else c.lens[key := CharLen(content)])
  }

  /** `execute_get_main`, lines 44-60. */
  function ExecuteGetMain(c: Cache, compiles: string -> bool, key: Key, content: string): (Cache, Outcome) {
    if key in c.lens && c.lens[key] == CharLen(content) && key !in c.table then (c, KeyError)
    else if key in c.lens && c.lens[key] == CharLen(content) && c.table[key].Some? then (c, Returned(c.table[key]))
    else if !compiles(content) then (c, NoMain)
    else (SetDefault(c, key, Func(content), content), Returned(Some(Func(content))))
  }

  /** `set`, lines 77-88. */
  function SetScript(c: Cache, key: Key, func: Option<Func>, content: string): Cache {
    c.(background := c.background + [Set(key, content)],
       table := c.table[key := func],
       lens := c.lens[key := CharLen(content)])
  }

  /** dict.pop with a default, which does not go through __delitem__. */
  function Pop(c: Cache, key: Key): Cache {
    c.(table := c.table - {key})
  }

  /** `__delitem__`, lines 18-21: a missing length raises first; a missing function raises last. */
  function DelItem(c: Cache, key: Key): Cache {
    c.(lens := c.lens - {key}, table := if key in c.lens then c.table - {key} else c.table)
  }

  /** The save phase of an upload, server.py:500-514, which never suspends. */
  function Upload(c: Cache, key: Key, content: string): Cache {
    var saved := SetScript(Pop(c, key), key, if key.Exec? then Some(Func(content)) else None, content);
    saved.(files := saved.files[key.path := content])
  }

  /** `load_lib` after its await, lines 99-121. */
  function LoadLib(c: Cache, path: string, reply: Option<string>): (Cache, Loaded) {
    var key := Lib(path);
    match reply
    case None =>
      if path !in c.files then (c, NotFound)
      else (c.(lens := c.lens[key := ByteLen(c.files[path])]), Changed(false))
    case Some(content) =>
      var same := key in c.lens && c.lens[key] == ByteLen(content);
      (c.(files := if same then c.files else c.files[path := content], lens := c.lens[key := ByteLen(content)]),
       Changed(!same && key in c.lens))
  }

  // ----- the class -----

  /** The dict subclass with its length dictionary, over the files of the server. */
  class InternalExecCache {
    var table: map<Key, Option<Func>>
    var contentLength: map<Key, nat>
    var background: seq<Write>
    var files: map<string, string>
    const compiles: string -> bool

    constructor (compiles: string -> bool, files: map<string, string>)
      ensures View() == Cache(map[], map[], [], files) && this.compiles == compiles
    {
      this.compiles := compiles;
      table, contentLength, background := map[], map[], [];
      this.files := files;
    }

    function View(): Cache
      reads this
    {
      Cache(table, contentLength, background, files)
    }

    /** `get` with the reply its await produced. */
    method GetAfterRead(key: Key, reply: Option<string>) returns (r: Outcome)
      modifies this
      ensures (View(), r) == Get(old(View()), compiles, key, reply)
    {
      if reply.None? {
        return Returned(None);
      }
      var content := reply.value;
      if key in contentLength && contentLength[key] == ByteLen(content) {
        return Returned(if key in table then table[key] else None);
      }
      if !compiles(content) {
        return NoMain;
      }
      table := table[key := Some(Func(content))];
      contentLength := contentLength[key := ByteLen(content)];
      r := Returned(Some(Func(content)));
    }

    method SetDefaultItem(key: Key, func: Func, content: string)
      modifies this
      ensures View() == SetDefault(old(View()), key, func, content)
    {
      if key !in table {
        background := background + [SetNx(key, content)];
        table := table[key := Some(func)];
      }
      if key !in contentLength {
        contentLength := contentLength[key := CharLen(content)];
      }
    }

    method ExecuteMain(key: Key, content: string) returns (r: Outcome)
      modifies this
      ensures (View(), r) == ExecuteGetMain(old(View()), compiles, key, content)
    {
      if key in contentLength && contentLength[key] == CharLen(content) {
        if key !in table {
          return KeyError;
        }
        if table[key].Some? {
          return Returned(table[key]);
        }
      }
      if !compiles(content) {
        return NoMain;
      }
      SetDefaultItem(key, Func(content), content);
      r := Returned(Some(Func(content)));
    }

    method SetItem(key: Key, func: Option<Func>, content: string)
      modifies this
      ensures View() == SetScript(old(View()), key, func, content)
    {
      background := background + [Set(key, content)];
      table := table[key := func];
      contentLength := contentLength[key := CharLen(content)];
    }

    /**
     * Raises unless both tables have the key; a length without a function, as a loaded
     * library has, is dropped all the same.
     */
    method DeleteItem(key: Key) returns (ok: bool)
      modifies this
      ensures ok <==> key in old(contentLength) && key in old(table)
      ensures View() == DelItem(old(View()), key)
    {
      if key !in contentLength {
        return false;
      }
      contentLength := contentLength - {key};
      ok := key in table;
      if ok {
        table := table - {key};
      } else {
        assert table - {key} == table;
      }
    }

    method LoadLibAfterRead(path: string, reply: Option<string>) returns (r: Loaded)
      modifies this
      ensures (View(), r) == LoadLib(old(View()), path, reply)
    {
      var key := Lib(path);
      if reply.None? {
        if path !in files {
          return NotFound;
        }
        contentLength := contentLength[key := ByteLen(files[path])];
        return Changed(false);
      }
      var content, changed := reply.value, false;
      if key !in contentLength || contentLength[key] != ByteLen(content) {
        files := files[path := content];
        changed := key in contentLength;
      }
      contentLength := contentLength[key := ByteLen(content)];
      r := Changed(changed);
    }

    /** The save phase of an upload: between the pop and the set the two tables disagree. */
    method UploadScript(key: Key, content: string)
      modifies this
      ensures View() == Upload(old(View()), key, content)
    {
      table := table - {key};
      SetItem(key, if key.Exec? then Some(Func(content)) else None, content);
      files := files[key.path := content];
      assert old(table) - {key} == Pop(old(View()), key).table;
    }
  }

  // ----- the transition system -----

  /** A coroutine suspended in redis.get, with the reply Redis gave when the read happened. */
  datatype Pending = GetPending(key: Key, reply: Option<string>) | LoadPending(path: string, reply: Option<string>)

  datatype Event =
    | Got(key: Key, reply: Option<string>, outcome: Outcome)
    | Ran(key: Key, content: string, outcome: Outcome)
    | Uploaded(key: Key, content: string)
    | Deleted(key: Key)
    | Flushed(write: Write)
    | WriteFailed(write: Write)
    | LoadedLib(path: string, reply: Option<string>, loaded: Loaded, lenBefore: Option<nat>, before: Option<string>,
        after: Option<string>)

  datatype State = State(cache: Cache, redis: map<Key, string>, pending: map<nat, Pending>, log: seq<Event>)

  datatype Step =
    | ReadForGet(id: nat, path: string)
    | FinishGet(id: nat)
    | RunMain(path: string, content: string)
    | UploadFile(key: Key, content: string)
    | Delete(key: Key)
    | ReadForLoad(id: nat, path: string)
    | FinishLoad(id: nat)
    | Flush(i: nat)
    | FailWrite(i: nat)
    | Elsewhere(key: Key, value: Option<string>)

  function RedisGet(s: State, key: Key): Option<string> {
    if key in s.redis then Some(s.redis[key]) else None
  }

  function File(c: Cache, path: string): Option<string> {
    if path in c.files then Some(c.files[path]) else None
  }

  function Written(redis: map<Key, string>, w: Write): map<Key, string> {
    if w.SetNx? && w.key in redis then redis else redis[w.key := w.content]
  }

  /** A step that is not enabled changes nothing. */
  function Apply(s: State, compiles: string -> bool, step: Step): State {
    match step
    case ReadForGet(id, path) =>
      if id in s.pending then s else s.(pending := s.pending[id := GetPending(Exec(path), RedisGet(s, Exec(path)))])
    case FinishGet(id) =>
      if id !in s.pending || !s.pending[id].GetPending? then s
      else
        var GetPending(key, reply) := s.pending[id];
        var (cache, outcome) := Get(s.cache, compiles, key, reply);
        s.(cache := cache, pending := s.pending - {id}, log := s.log + [Got(key, reply, outcome)])
    case RunMain(path, content) =>
      var (cache, outcome) := ExecuteGetMain(s.cache, compiles, Exec(path), content);
      s.(cache := cache, log := s.log + [Ran(Exec(path), content, outcome)])
    case UploadFile(key, content) =>
      if key.Exec? && !compiles(content) then s
          else s.(cache := Upload(s.cache, key, content), log := s.log + [Uploaded(key, content)])
    case Delete(key) => if key in s.cache.lens then s.(cache := DelItem(s.cache, key), log := s.log + [Deleted(key)])
        else s
    case ReadForLoad(id, path) =>
      if id in s.pending then s else s.(pending := s.pending[id := LoadPending(path, RedisGet(s, Lib(path)))])
    case FinishLoad(id) =>
      if id !in s.pending || !s.pending[id].LoadPending? then s
      else
        var LoadPending(path, reply) := s.pending[id];
        var (cache, outcome) := LoadLib(s.cache, path, reply);
        var len := if Lib(path) in s.cache.lens then Some(s.cache.lens[Lib(path)]) else None;
        s.(cache := cache, pending := s.pending - {id},
           log := s.log + [LoadedLib(path, reply, outcome, len, File(s.cache, path), File(cache, path))])
    case Flush(i) =>
      if i >= |s.cache.background| then s
      else
        var bg := s.cache.background;
        s.(redis := Written(s.redis, bg[i]), cache := s.cache.(background := bg[..i] + bg[i + 1..]),
            log := s.log + [Flushed(bg[i])])
    case FailWrite(i) =>
      if i >= |s.cache.background| then s
      else
        var bg := s.cache.background;
        s.(cache := s.cache.(background := bg[..i] + bg[i + 1..]), log := s.log + [WriteFailed(bg[i])])
    case Elsewhere(key, value) =>
      s.(redis := if value.None? then s.redis - {key} else s.redis[key := value.value])
  }

  function Init(files: map<string, string>): State {
    State(Cache(map[], map[], [], files), map[], map[], [])
  }

  function Run(s: State, compiles: string -> bool, steps: seq<Step>): State {
    if steps == [] then s else Apply(Run(s, compiles, steps[..|steps| - 1]), compiles, steps[|steps| - 1])
  }
}
