/**
 * The config cache as the object it is (config_cache.go:39-92, 270-279): a map of entries updated in place, whose
 * configurations are maps on the heap, and refer to nested objects there. Each method is one call that is not
 * interleaved; interleavings are the subject of module ConfigCache. The clock readings and Control's reply are parameters.
 */
module ConfigCacheObject {
  import C = ConfigCache

  /** An object or array inside a configuration. */
  class Nested {
    var content: C.Content

    constructor (content: C.Content)
      ensures this.content == content
    {
      this.content := content;
    }
  }

  datatype Value = Scalar(text: string) | Ref(node: Nested)

  /** What a configuration holds under its keys; equal values are the same nested objects. */
  type Values = map<string, Value>

  /** A ConfigView: a map shared by reference. */
  class ConfigView {
    var values: Values

    constructor (values: Values)
      ensures this.values == values
    {
      this.values := values;
    }
  }

  datatype Entry = Entry(config: ConfigView, expiresAt: int)

  /** What an entry amounts to. */
  datatype Stored = Stored(config: Values, expiresAt: int)

  /** Control's answer as it was decoded. */
  datatype Reply = Answer(config: Values) | Error

  /** The new map refers to the same nested objects. */
  method CloneConfigView(view: ConfigView?) returns (out: ConfigView?)
    ensures out == null <==> view == null
    ensures out != null ==> fresh(out) && out.values == view.values
  {
    if view == null {
      return null;
    }
    out := new ConfigView(view.values);
  }

  class Cache {
    var entries: map<string, Entry>

    constructor ()
      ensures entries == map[]
    {
      entries := map[];
    }

    function Views(): set<ConfigView>
      reads this
    {
      set k | k in entries :: entries[k].config
    }

    ghost function Contents(): map<string, Stored>
      reads this, Views()
    {
      map k | k in entries :: Stored(entries[k].config.values, entries[k].expiresAt)
    }

    predicate Live(key: string, now: int)
      reads this
    {
      key in entries && now < entries[key].expiresAt
    }

    /** One of the two lookups: a clone of a live entry's configuration. */
    method Lookup(key: string, now: int) returns (out: ConfigView?)
      ensures out != null <==> Live(key, now)
      ensures out != null <==> key in entries && now < entries[key].expiresAt
      ensures out != null ==> fresh(out) && out.values == Contents()[key].config
      ensures out != null ==> out.values == entries[key].config.values
    {
      if key in entries && now < entries[key].expiresAt {
        out := CloneConfigView(entries[key].config);
      } else {
        out := null;
      }
    }

    method PutConfigCacheEntry(key: string, cfg: ConfigView, ttlEnv: string, now: int)
      modifies this
      ensures Contents() == old(Contents())[key := Stored(cfg.values, now + C.TTL(ttlEnv))]
      ensures key in entries && entries == old(entries)[key := Entry(entries[key].config, now + C.TTL(ttlEnv))]
      ensures fresh(Views() - old(Views())) && key in entries && fresh(entries[key].config)
    {
      var ttl := C.TTL(ttlEnv);
      PutUntil(key, cfg, now + ttl);
    }

    method PutUntil(key: string, cfg: ConfigView, expiresAt: int)
      modifies this
      ensures Contents() == old(Contents())[key := Stored(cfg.values, expiresAt)]
      ensures key in entries && entries == old(entries)[key := Entry(entries[key].config, expiresAt)]
      ensures fresh(Views() - old(Views())) && fresh(entries[key].config)
    {
      var clone := CloneConfigView(cfg);
      entries := entries[key := Entry(clone, expiresAt)];
    }

    /**
     * fetchControlConfigCached: with a token, a live entry answers; otherwise Control is asked and its answer stored.
     * Without interleaving the second lookup never hits. The map returned is the caller's own.
     */
    method FetchControlConfigCached(token: string, key: string, ttlEnv: string, reply: Reply,
                                    first: int, second: int, storing: int)
      returns (out: ConfigView?, asked: bool)
      requires first <= second <= storing
      modifies this
      ensures asked <==> token == "" || key !in old(entries) || first >= old(entries)[key].expiresAt
      ensures asked <==> token == "" || !old(Live(key, first))
      ensures out == null <==> asked && reply.Error?
      ensures out != null ==> fresh(out) && out !in Views()
      ensures out != null ==> out.values == if asked then reply.config else old(Contents())[key].config
      ensures Contents() == if asked && token != "" && reply.Answer?
                            then old(Contents())[key := Stored(reply.config, storing + C.TTL(ttlEnv))]
                            else old(Contents())
      ensures if asked && token != "" && reply.Answer?
              then key in entries && entries == old(entries)[key := Entry(entries[key].config, storing + C.TTL(ttlEnv))]
              else entries == old(entries)
    {
      if token == "" {
        asked := true;
        out := null;
        if reply.Answer? {
          out := new ConfigView(reply.config);
        }
        return;
      }
      asked := false;
      out := Lookup(key, first);
      if out != null {
        return;
      }
      out := Lookup(key, second);
      if out != null {
        return;
      }
      asked := true;
      if reply.Error? {
        return;
      }
      out := Keep(key, reply.config, ttlEnv, storing);
    }

    /** The end of the flight's function: store the answer and return a clone of it. */
    method Keep(key: string, config: Values, ttlEnv: string, now: int) returns (out: ConfigView)
      modifies this
      ensures fresh(out) && out !in Views() && out.values == config
      ensures Contents() == old(Contents())[key := Stored(config, now + C.TTL(ttlEnv))]
      ensures key in entries && entries == old(entries)[key := Entry(entries[key].config, now + C.TTL(ttlEnv))]
    {
      var cfg := new ConfigView(config);
      PutConfigCacheEntry(key, cfg, ttlEnv, now);
      out := CloneConfigView(cfg);
    }
  }

  /** All that is found under a configuration's keys. */
  ghost function Full(values: Values): C.Content
    reads set k | k in values && values[k].Ref? :: values[k].node
  {
    map k | k in values :: if values[k].Scalar? then C.Leaf(values[k].text) else C.Tree(values[k].node.content)
  }

  /**
   * What a handler's write to a nested object does to the cache: no map changes, but every entry that refers to the
   * object holds what was written.
   */
  method WriteNested(cache: Cache, node: Nested, content: C.Content)
    modifies node
    ensures cache.Contents() == old(cache.Contents())
    ensures forall k :: k in cache.entries ==>
              var values := cache.entries[k].config.values;
              && Full(values).Keys == values.Keys
              && forall field :: field in values ==>
                   Full(values)[field] == if values[field] == Ref(node) then C.Tree(content) else old(Full(values))[field]
  {
    node.content := content;
  }

  /** The object's table as the step machine has it, whatever its heap and its flights. */
  ghost predicate Represents(cache: Cache, s: C.State)
    reads cache
  {
    && s.cache.Keys == cache.entries.Keys
    && forall k :: k in s.cache ==> s.cache[k].expiresAt == cache.entries[k].expiresAt && s.cache[k].ref < |s.heap|
  }

  /** A lookup of the object hits exactly when one of the step machine does. */
  lemma LiveIsHit(cache: Cache, s: C.State, key: string, now: int)
    requires Represents(cache, s)
    ensures cache.Live(key, now) <==> C.Hit(s, key, now)
  {}

  /**
   * Two calls with one token and key, of which the first stores Control's answer at `storing`: the second asks Control
   * if and only if it comes when the configured lifetime is over, and otherwise is given that answer without asking.
   */
  method CallTwice(cache: Cache, token: string, key: string, ttlEnv: string, answer: Values, first: int, storing: int,
                   reply: Reply, again: int, later: int)
    returns (out: ConfigView?, asked: bool)
    requires token != "" && first <= storing <= again <= later
    requires key !in cache.entries || first >= cache.entries[key].expiresAt
    modifies cache
    ensures asked <==> again >= storing + C.TTL(ttlEnv)
    ensures !asked ==> out != null && out.values == answer
    ensures asked && reply.Answer? ==> out != null && out.values == reply.config
    ensures asked && reply.Error? ==> out == null
  {
    var _, askedFirst := cache.FetchControlConfigCached(token, key, ttlEnv, Answer(answer), first, first, storing);
    assert askedFirst;
    out, asked := cache.FetchControlConfigCached(token, key, ttlEnv, reply, again, again, later);
  }
}
