/** The modifier cache as the code of one goroutine: checkout with its reset of the modifier, release,
  prune and clean. Between its calls the counter of every pool is the length of its channel; the
  interleavings of several goroutines are the subject of ModifierPool. */
module ModifierCache {
  import opened Common
  import opened ModifierPool

  const DEFAULT_ADDRESS := "http://127.0.0.1:8020"

  /** The fields that a checkout sets, whatever the modifier was used for before. */
  datatype Settings = Settings(
    insecure: bool, rawEnv: string, regions: seq<string>, version: string, versionFilter: seq<string>,
    templatePath: string, projectIndex: seq<string>, sectionKey: string, sectionName: string,
    subSectionName: string, subSectionValue: string, sectionPath: string)

  function Pristine(insecure: bool, env: string, regions: seq<string>): Settings {
    Settings(insecure, env, regions, "", [], "", [], "", "", "", "", "")
  }

  class Modifier {
    const address: string
    var insecure: bool
    var env: string
    var rawEnv: string
    var regions: seq<string>
    var version: string
    var versionFilter: seq<string>
    var templatePath: string
    var projectIndex: seq<string>
    var sectionKey: string
    var sectionName: string
    var subSectionName: string
    var subSectionValue: string
    var sectionPath: string
    var stale: bool

    function Current(): Settings
      reads this
    {
      Settings(insecure, rawEnv, regions, version, versionFilter, templatePath, projectIndex, sectionKey, sectionName,
        subSectionName, subSectionValue, sectionPath)
    }

    constructor (insecure: bool, address: string, env: string, regions: seq<string>)
      ensures Current() == Pristine(insecure, env, regions) && this.env == "secret" && !stale
      ensures this.address == address
    {
      this.insecure, this.address, this.env, this.rawEnv, this.regions := insecure, address, "secret", env, regions;
      version, versionFilter, templatePath, projectIndex := "", [], "", [];
      sectionKey, sectionName, subSectionName, subSectionValue, sectionPath := "", "", "", "", "";
      stale := false;
    }

    /** What a checkout clears and sets; `env` and `stale` stay as they are. */
    method Reset(insecure: bool, rawEnv: string, regions: seq<string>)
      modifies this
      ensures Current() == Pristine(insecure, rawEnv, regions) && env == old(env) && stale == old(stale)
    {
      this.insecure := insecure;
      this.rawEnv := rawEnv;
      this.regions := regions;
      version := "";
      versionFilter := [];
      templatePath := "";
      projectIndex := [];
      ResetSection();
    }

    method ResetSection()
      modifies `sectionKey, `sectionName, `subSectionName, `subSectionValue, `sectionPath
      ensures sectionKey == sectionName == subSectionName == subSectionValue == sectionPath == ""
    {
      sectionKey := "";
      sectionName := "";
      subSectionName := "";
      subSectionValue := "";
      sectionPath := "";
    }
  }

  /** What the settings say, field by field. */
  lemma PristineFields(m: Modifier, insecure: bool, env: string, regions: seq<string>)
    ensures m.Current() == Pristine(insecure, env, regions) <==>
      && m.insecure == insecure && m.rawEnv == env && m.regions == regions
      && m.version == "" && m.versionFilter == [] && m.templatePath == "" && m.projectIndex == []
      && m.sectionKey == "" && m.sectionName == "" && m.subSectionName == "" && m.subSectionValue == "" && m.sectionPath == ""
  {
  }

  class ModCache {
    var modCount: nat
    var modifierChan: seq<Modifier>

    // What the pool was made for, for the proof only.
    ghost const env: string
    ghost const address: string

    ghost predicate Quiescent()
      reads this
    {
      modCount == |modifierChan| && |modifierChan| <= CAPACITY
    }

    /** Every queued modifier talks to the pool's address. */
    ghost predicate AtAddress()
      reads this
    {
      forall i :: 0 <= i < |modifierChan| ==> modifierChan[i].address == address != ""
    }

    constructor (ghost env: string, ghost address: string)
      ensures modCount == 0 && modifierChan == [] && this.env == env && this.address == address
    {
      modCount, modifierChan := 0, [];
      this.env, this.address := env, address;
    }

    /** Counts a modifier and sends it to the channel. */
    method Add(m: Modifier)
      requires Quiescent() && |modifierChan| < CAPACITY
      modifies this
      ensures Quiescent() && modifierChan == old(modifierChan) + [m]
      ensures old(AtAddress()) && m.address == address != "" ==> AtAddress()
    {
      modCount := AddUint64(modCount, 1);
      modifierChan := modifierChan + [m];
    }

    /** Removes up to `limit` modifiers from a channel that holds more than one. */
    method Clean(limit: nat)
      requires Quiescent()
      modifies this
      ensures Quiescent()
      ensures
        var n := if old(modCount) <= 1 then 0 else if limit < old(modCount) then limit else old(modCount);
        modifierChan == old(modifierChan)[n..]
      ensures old(AtAddress()) ==> AtAddress()
    {
      ghost var was := modifierChan;
      if modCount > 1 {
        var i := 0;
        while i < limit && modifierChan != []
          invariant i <= limit && i <= |was| && modifierChan == was[i..] && modCount == |modifierChan|
          invariant old(AtAddress()) ==> AtAddress()
        {
          assert forall j :: 0 <= j < |modifierChan[1..]| ==> modifierChan[1..][j] == modifierChan[j + 1];
          modifierChan := modifierChan[1..];
          CountsDown(modCount);
          modCount := AddUint64(modCount, MINUS_ONE);
          i := i + 1;
        }
      }
    }
  }

  function PoolKey(env: string, address: string): string {
    env + "+" + address
  }

  /** Environments without a plus sign and addresses never share a key. */
  lemma KeysApart(env: string, address: string, env2: string, address2: string)
    requires '+' !in env && '+' !in env2
    ensures PoolKey(env, address) == PoolKey(env2, address2) <==> env == env2 && address == address2
  {
    var key, key2 := env + ['+'] + address, env2 + ['+'] + address2;
    assert PoolKey(env, address) == key && PoolKey(env2, address2) == key2;
    if key == key2 {
      KeyParts(env, address);
      KeyParts(env2, address2);
    }
  }

  lemma KeyParts(env: string, address: string)
    requires '+' !in env
    ensures var key := env + ['+'] + address; Split(key, '+')[0] == env && |env| < |key| && key[|env| + 1..] == address
  {
    SplitFirst(env, address, '+');
    assert ([env] + Split(address, '+'))[0] == env;
  }

  /** The process-wide cache. */
  class Cache {
    var pools: map<string, ModCache>

    ghost predicate Valid()
      reads this, pools.Values
    {
      && (forall k :: k in pools ==> pools[k].Quiescent())
      && (forall k, k' :: k in pools && k' in pools && k != k' ==> pools[k] != pools[k'])
    }

    /** Each pool belongs to one environment, without a plus sign, and one address, and holds modifiers for
      that address only. */
    ghost predicate Separate()
      reads this, pools.Values
    {
      forall k :: k in pools ==> '+' !in pools[k].env && k == PoolKey(pools[k].env, pools[k].address) && pools[k].AtAddress()
    }

    /** The modifiers queued under a key, oldest first. */
    ghost function Queue(key: string): seq<Modifier>
      reads this, pools.Values
    {
      if key in pools then pools[key].modifierChan else []
    }

    constructor ()
      ensures Valid() && Separate() && pools == map[]
    {
      pools := map[];
    }

    /** The pool found for a pair is the pair's own. */
    lemma OwnPool(env: string, address: string)
      requires Separate() && '+' !in env && PoolKey(env, address) in pools
      ensures pools[PoolKey(env, address)].env == env && pools[PoolKey(env, address)].address == address
    {
      var pool := pools[PoolKey(env, address)];
      KeysApart(env, address, pool.env, pool.address);
    }

    method CheckInitModCache(env: string, address: string)
      requires Valid()
      modifies this
      ensures Valid() && PoolKey(env, address) in pools && fresh(pools.Values - old(pools.Values))
      ensures forall k :: Queue(k) == old(Queue(k))
      ensures old(Separate()) && '+' !in env ==> Separate()
    {
      if PoolKey(env, address) !in pools {
        var pool := new ModCache(env, address);
        ghost var was := pools;
        pools := pools[PoolKey(env, address) := pool];
        assert forall p :: p in pools.Values ==> p in was.Values || p == pool;
        assert forall k :: k in was ==> was[k] in was.Values && was[k] != pool;
        assert pool.AtAddress();
      }
    }

    /** `cleanCacheHelper`: the pool loses up to `limit` modifiers if it counts more than one. */
    method CleanCacheHelper(env: string, address: string, limit: nat)
      requires Valid() && PoolKey(env, address) in pools
      modifies pools.Values
      ensures Valid()
      ensures
        var was := old(Queue(PoolKey(env, address)));
        var n := if |was| <= 1 then 0 else if limit < |was| then limit else |was|;
        Queue(PoolKey(env, address)) == was[n..]
      ensures forall k :: k != PoolKey(env, address) ==> Queue(k) == old(Queue(k))
      ensures old(Separate()) ==> Separate()
    {
      var pool := pools[PoolKey(env, address)];
      assert pool in pools.Values;
      pool.Clean(limit);
    }

    method PruneCache(env: string, address: string, limit: nat)
      requires Valid()
      modifies pools.Values
      ensures Valid()
      ensures
        var was := old(Queue(PoolKey(env, address)));
        Queue(PoolKey(env, address)) == if |was| <= limit || |was| <= 1 then was else was[limit..]
      ensures forall k :: k != PoolKey(env, address) ==> Queue(k) == old(Queue(k))
      ensures old(Separate()) ==> Separate()
    {
      if PoolKey(env, address) in pools && pools[PoolKey(env, address)].modCount > limit {
        CleanCacheHelper(env, address, limit);
      }
    }

    /** Takes the oldest queued modifier; an empty channel times out. */
    method CachedModifierHelper(env: string, address: string) returns (m: Modifier?)
      requires Valid()
      modifies this, pools.Values
      ensures Valid() && fresh(pools.Values - old(pools.Values))
      ensures
        var was := old(Queue(PoolKey(env, address)));
        if was == [] then m == null && Queue(PoolKey(env, address)) == []
        else m == was[0] && Queue(PoolKey(env, address)) == was[1..]
      ensures forall k :: k != PoolKey(env, address) ==> Queue(k) == old(Queue(k))
      ensures old(Separate()) && '+' !in env ==> Separate() && (m != null ==> m.address == address != "")
    {
      CheckInitModCache(env, address);
      if Separate() && '+' !in env { OwnPool(env, address); }
      var pool := pools[PoolKey(env, address)];
      assert pool in pools.Values;
      if pool.modifierChan == [] { return null; }
      m := pool.modifierChan[0];
      pool.modifierChan := pool.modifierChan[1..];
      CountsDown(pool.modCount);
      pool.modCount := AddUint64(pool.modCount, MINUS_ONE);
    }

    /** Prunes the pool, then takes its oldest modifier if one is left. */
    method Checkout(env: string, address: string) returns (m: Modifier?)
      requires Valid()
      modifies this, pools.Values
      ensures Valid() && fresh(pools.Values - old(pools.Values))
      ensures
        var was := old(Queue(PoolKey(env, address)));
        var left := if |was| <= LIMIT then was else was[LIMIT..];
        if left == [] then m == null && Queue(PoolKey(env, address)) == []
        else m == left[0] && m in was && Queue(PoolKey(env, address)) == left[1..]
      ensures forall k :: k != PoolKey(env, address) ==> Queue(k) == old(Queue(k))
      ensures old(Separate()) && '+' !in env ==> Separate() && (m != null ==> m.address == address != "")
    {
      PruneCache(env, address, LIMIT);
      m := CachedModifierHelper(env, address);
    }

    /** A modifier with the requested environment, regions and security setting and with every other
      reset field empty, whether it is new or was used before. A used one keeps its `env`. */
    method NewModifier(insecure: bool, address: string, env: string, regions: seq<string>, useCache: bool) returns (m: Modifier)
      requires Valid()
      modifies this, pools.Values, set q | q in Queue(PoolKey(env, address)) :: q
      ensures Valid() && m.Current() == Pristine(insecure, env, regions)
      ensures
        var was := old(Queue(PoolKey(env, address)));
        var left := if |was| <= LIMIT then was else was[LIMIT..];
        if !useCache then fresh(m) && Queue(PoolKey(env, address)) == was
        else if left == [] then fresh(m) && Queue(PoolKey(env, address)) == []
        else m == left[0] && m.env == old(left[0].env) && Queue(PoolKey(env, address)) == left[1..]
      ensures fresh(m) ==> m.env == "secret" && m.address == if address == "" then DEFAULT_ADDRESS else address
      ensures old(Separate()) && '+' !in env ==> Separate() && m.address == if address == "" then DEFAULT_ADDRESS else address
      ensures forall k :: k != PoolKey(env, address) ==> Queue(k) == old(Queue(k))
    {
      hide Separate, Valid;
      if useCache {
        var cached := Checkout(env, address);
        if cached != null {
          cached.Reset(insecure, env, regions);
          return cached;
        }
      }
      m := new Modifier(insecure, if address == "" then DEFAULT_ADDRESS else address, env, regions);
    }

    /** The pool a modifier goes back to. */
    function ReleaseKey(m: Modifier): string
      reads this, m
    {
      PoolKey(if m.env in pools then m.env else m.rawEnv, m.address)
    }

    /** Cleans a pool that counts more than ten, then counts and queues the modifier. */
    method ReleaseHelper(m: Modifier, env: string)
      requires Valid()
      modifies this, pools.Values
      ensures Valid()
      ensures
        var was := old(Queue(PoolKey(env, m.address)));
        Queue(PoolKey(env, m.address)) == (if |was| > LIMIT then was[LIMIT..] else was) + [m]
      ensures forall k :: k != PoolKey(env, m.address) ==> Queue(k) == old(Queue(k))
      ensures old(Separate()) && '+' !in env && m.address != "" ==> Separate()
    {
      CheckInitModCache(env, m.address);
      if Separate() && '+' !in env { OwnPool(env, m.address); }
      PruneCache(env, m.address, LIMIT);
      assert pools[PoolKey(env, m.address)] in pools.Values;
      pools[PoolKey(env, m.address)].Add(m);
    }

    /** Gives a modifier back; a stale one is dropped. */
    method Release(m: Modifier)
      requires Valid()
      modifies this, pools.Values
      ensures Valid()
      ensures
        var was := old(Queue(ReleaseKey(m)));
        Queue(old(ReleaseKey(m))) == if m.stale then was else (if |was| > LIMIT then was[LIMIT..] else was) + [m]
      ensures forall k :: k != old(ReleaseKey(m)) ==> Queue(k) == old(Queue(k))
      ensures old(Separate()) && '+' !in m.env && '+' !in m.rawEnv && m.address != "" ==>
        && Separate()
        && forall env, address :: '+' !in env && (env != m.rawEnv || address != m.address) ==>
             Queue(PoolKey(env, address)) == old(Queue(PoolKey(env, address)))
    {
      if Separate() && '+' !in m.env && '+' !in m.rawEnv {
        assert m.env !in pools;
        forall env, address | '+' !in env && (env != m.rawEnv || address != m.address)
          ensures PoolKey(env, address) != ReleaseKey(m)
        {
          KeysApart(env, address, m.rawEnv, m.address);
        }
      }
      if m.stale { return; }
      ReleaseHelper(m, if m.env in pools then m.env else m.rawEnv);
    }
  }
}
