/**
Asynchronous Redis clients, one per event loop and url. The sub-map of a loop is shared: the
weak dictionary finds it for later requests, and the finalizer registered when it was still
empty closes whatever it holds once the loop has died.
*/
module RedisClients {
  import opened Options

  class EventLoop {
    constructor () {}
  }

  class Client {
    const loop: EventLoop
    const url: string
    var closed: bool

    constructor (loop: EventLoop, url: string)
      ensures this.loop == loop && this.url == url && !closed
    {
      this.loop, this.url, closed := loop, url, false;
    }

    method Close()
      modifies this
      ensures closed
    {
      closed := true;
    }
  }

  class PoolMap {
    var clients: map<string, Client>

    constructor ()
      ensures clients == map[]
    {
      clients := map[];
    }
  }

  class LoopClients {
    /** The url of the settings, used when a request names none. */
    const settingsUrl: Option<string>
    /** The weak dictionary: an entry goes when its loop dies. */
    var pools: map<EventLoop, PoolMap>
    /** The map each finalizer was registered with. */
    var finalizers: map<EventLoop, PoolMap>
    /** Every client ever created, and every loop that has died. */
    ghost var created: set<Client>
    ghost var dead: set<EventLoop>

    ghost predicate Valid()
      reads this, pools.Values, created
    {
      && finalizers == pools
      && pools.Keys !! dead
      && (forall l, k :: l in pools && k in pools && pools[l] == pools[k] ==> l == k)
      && (forall l, url :: l in pools && url in pools[l].clients ==>
            var c := pools[l].clients[url];
            c in created && c.loop == l && c.url == url && !c.closed)
      && (forall c :: c in created ==> if c.loop in dead then c.closed else Held(c))
      && (forall c, d :: c in created && d in created && c.loop == d.loop && c.url == d.url ==> c == d)
    }

    /** The client is the one its own loop's map holds for its url. */
    ghost predicate Held(c: Client)
      reads this, pools.Values
    {
      c.loop in pools && c.url in pools[c.loop].clients && pools[c.loop].clients[c.url] == c
    }

    constructor (settingsUrl: Option<string>)
      ensures Valid() && this.settingsUrl == settingsUrl
      ensures pools == map[] && created == {} && dead == {}
    {
      this.settingsUrl := settingsUrl;
      pools, finalizers, created, dead := map[], map[], {}, {};
    }

    /** `redis_url or settings.REDIS_URL`. */
    function UrlOf(url: Option<string>): Option<string> {
      if url.Some? && url.value != "" then url else settingsUrl
    }

    /** Finds the loop's map, or makes an empty one and registers its finalizer. */
    method PoolFor(loop: EventLoop) returns (pool: PoolMap)
      requires Valid() && loop !in dead
      modifies this`pools, this`finalizers
      ensures Valid() && loop in pools && pools[loop] == pool
      ensures old(loop in pools) ==> pools == old(pools)
      ensures old(loop !in pools) ==> fresh(pool) && pool.clients == map[] && pools == old(pools)[loop := pool]
    {
      if loop in pools {
        return pools[loop];
      }
      pool := new PoolMap();
      pools := pools[loop := pool];
      finalizers := finalizers[loop := pool];
    }

    /** The client of this loop and url, made when there is none; nothing when no url is configured. */
    method GetAsyncClient(url: Option<string>, loop: EventLoop) returns (client: Option<Client>)
      requires Valid() && loop !in dead
      modifies this, pools.Values
      ensures Valid() && dead == old(dead)
      ensures fresh(pools.Values - old(pools.Values))
      ensures forall l :: l in old(pools) ==> l in pools && pools[l] == old(pools[l])
      ensures client.None? <==> (url == None || url == Some("")) && settingsUrl == None
      ensures client.None? ==> created == old(created)
      ensures client.Some? ==>
                var c := client.value;
                && c.loop == loop && !c.closed && Held(c)
                && Some(c.url) == (if url == None || url == Some("") then settingsUrl else url)
                && created == old(created) + {c}
                && (c in old(created) || fresh(c))
      ensures forall c :: c in old(created) ==> c.closed == old(c.closed)
    {
      var actual := UrlOf(url);
      if actual.None? {
        return None;
      }
      var pool := PoolFor(loop);
      if actual.value in pool.clients {
        return Some(pool.clients[actual.value]);
      }
      var c := new Client(loop, actual.value);
      AddClient(pool, c);
      return Some(c);
    }

    method AddClient(pool: PoolMap, c: Client)
      requires Valid() && c.loop !in dead && c.loop in pools && pools[c.loop] == pool
      requires c.url !in pool.clients && c !in created && !c.closed
      modifies this`created, pool
      ensures Valid() && created == old(created) + {c} && Held(c)
    {
      assert forall d :: d in created && d.loop == c.loop ==> d.url != c.url;
      pool.clients := pool.clients[c.url := c];
      created := created + {c};
    }

    /** `_close_pools`: closes every client of the map, as it is by then. */
    method ClosePools(pool: PoolMap)
      modifies pool.clients.Values
      ensures forall c :: c in pool.clients.Values ==> c.closed
    {
      var todo := pool.clients.Keys;
      while todo != {}
        invariant todo <= pool.clients.Keys
        invariant forall url :: url in pool.clients && url !in todo ==> pool.clients[url].closed
        decreases todo
      {
        var url :| url in todo;
        pool.clients[url].Close();
        todo := todo - {url};
      }
    }

    /** The map of a live loop holds exactly the clients ever created for it. */
    lemma PoolIsExact(loop: EventLoop)
      requires Valid() && loop in pools
      ensures forall c :: c in pools[loop].clients.Values <==> c in created && c.loop == loop
    {
      forall c | c in created && c.loop == loop ensures c in pools[loop].clients.Values {
        assert Held(c);
      }
    }

    /** The loop is garbage collected: its entry disappears and its finalizer, if any, runs. */
    method LoopDied(loop: EventLoop)
      requires Valid() && loop !in dead
      modifies this, created
      ensures Valid() && dead == old(dead) + {loop} && created == old(created)
      ensures pools == old(pools) - {loop}
      ensures forall c :: c in created ==> c.closed == (old(c.closed) || c.loop == loop)
    {
      if loop in finalizers {
        PoolIsExact(loop);
        ClosePools(finalizers[loop]);
      }
      ghost var was := pools;
      pools := pools - {loop};
      finalizers := finalizers - {loop};
      dead := dead + {loop};
      OthersStayHeld(was, loop);
    }

    /** The map of a client is still found after another loop has been forgotten. */
    lemma OthersStayHeld(was: map<EventLoop, PoolMap>, loop: EventLoop)
      requires pools == was - {loop}
      ensures forall c ::
                && c in created && c.loop != loop
                && c.loop in was && c.url in was[c.loop].clients && was[c.loop].clients[c.url] == c
                ==> Held(c)
    {
    }
  }
}
