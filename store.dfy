/**
 * The index store the rotator talks to (the pyes client of an Elasticsearch
 * cluster), reduced to what rotation touches: the index names, the aliases, the
 * per-index compression setting and force-merge target, and a log of the requests
 * received, so that their order and number can be stated.
 */
module Store {

  /** The index settings the rotator sends: `{"index": {"store.compress.stored": ...}}`. */
  datatype IndexSettings = IndexSettings(storeCompressStored: bool)

  /** The settings of the compression pass. */
  const CompressSettings: IndexSettings := IndexSettings(true)

  /** One request to the store, in the order it was issued. */
  datatype Call =
    | CreateIndexIfMissing(index: string)
    | SetAlias(alias: string, index: string)
    | UpdateSettings(index: string, settings: IndexSettings)
    | Optimize(indices: seq<string>, maxNumSegments: nat)
    | DeleteIndex(index: string)

  /** What the store holds. */
  datatype StoreState = StoreState(
    indices: set<string>,
    aliases: map<string, string>,
    compressed: set<string>,
    merged: map<string, nat>)

  /** Aliases point at existing indices, and settings belong to existing indices. */
  predicate Consistent(s: StoreState)
  {
    && (forall a :: a in s.aliases ==> s.aliases[a] in s.indices)
    && s.compressed <= s.indices
    && s.merged.Keys <= s.indices
  }

  /** The effect of `create_index_if_missing`: an existing index is left as it is. */
  function Created(s: StoreState, index: string): (t: StoreState)
    ensures t.indices == s.indices + {index}
    ensures t.aliases == s.aliases && t.compressed == s.compressed && t.merged == s.merged
    ensures index in s.indices ==> t == s
    ensures Consistent(s) ==> Consistent(t)
  {
    s.(indices := s.indices + {index})
  }

  /** The effect of `set_alias`: the alias now names `index` alone, whatever it named before. */
  function Aliased(s: StoreState, alias: string, index: string): (t: StoreState)
    ensures alias in t.aliases && t.aliases[alias] == index
    ensures forall a :: a != alias ==> (a in t.aliases <==> a in s.aliases)
    ensures forall a :: a != alias && a in s.aliases ==> t.aliases[a] == s.aliases[a]
    ensures t.indices == s.indices && t.compressed == s.compressed && t.merged == s.merged
    ensures Consistent(s) && index in s.indices ==> Consistent(t)
  {
    s.(aliases := s.aliases[alias := index])
  }

  /** The effect of `update_settings` on the compression setting of one index. */
  function Settled(s: StoreState, index: string, settings: IndexSettings): (t: StoreState)
    ensures index in t.compressed <==> settings.storeCompressStored
    ensures forall i :: i != index ==> (i in t.compressed <==> i in s.compressed)
    ensures t.indices == s.indices && t.aliases == s.aliases && t.merged == s.merged
    ensures Consistent(s) && index in s.indices ==> Consistent(t)
  {
    if settings.storeCompressStored then s.(compressed := s.compressed + {index})
    else s.(compressed := s.compressed - {index})
  }

  /** The effect of `optimize`: each named index is force-merged down to `maxNumSegments` segments. */
  function Merged(s: StoreState, indices: seq<string>, maxNumSegments: nat): (t: StoreState)
    ensures forall i :: i in indices ==> i in t.merged && t.merged[i] == maxNumSegments
    ensures forall i :: i !in indices ==> (i in t.merged <==> i in s.merged)
    ensures forall i :: i !in indices && i in s.merged ==> t.merged[i] == s.merged[i]
    ensures t.indices == s.indices && t.aliases == s.aliases && t.compressed == s.compressed
    ensures Consistent(s) && (forall i :: i in indices ==> i in s.indices) ==> Consistent(t)
  {
    var m := map i | i in s.merged.Keys + (set j | j in indices) ::
               if i in indices then maxNumSegments else s.merged[i];
    s.(merged := m)
  }

  /**
   * The effect of `delete_index`: the index goes, and with it the aliases that
   * pointed at it and its settings; deleting a missing index changes nothing.
   */
  function Deleted(s: StoreState, index: string): (t: StoreState)
    ensures t.indices == s.indices - {index}
    ensures forall a :: a in t.aliases <==> a in s.aliases && s.aliases[a] != index
    ensures forall a :: a in t.aliases ==> t.aliases[a] == s.aliases[a]
    ensures t.compressed == s.compressed - {index}
    ensures t.merged.Keys == s.merged.Keys - {index}
    ensures forall i :: i in t.merged ==> t.merged[i] == s.merged[i]
    ensures Consistent(s) ==> Consistent(t)
    ensures Consistent(s) && index !in s.indices ==> t == s
  {
    StoreState(
      s.indices - {index},
      map a | a in s.aliases && s.aliases[a] != index :: s.aliases[a],
      s.compressed - {index},
      s.merged - {index})
  }

  /** Requests appended in two steps are the requests appended at once. */
  lemma SeqAssoc<T>(a: seq<T>, b: seq<T>, c: seq<T>)
    ensures a + b + c == a + (b + c)
  {
  }

  /** A store client, shared by whoever holds a reference to it. */
  class IndexStore {
    var indices: set<string>
    var aliases: map<string, string>
    var compressed: set<string>
    var merged: map<string, nat>
    /** Every request received, oldest first. */
    var log: seq<Call>

    function State(): StoreState
      reads this
    {
      StoreState(indices, aliases, compressed, merged)
    }

    predicate Valid()
      reads this
    {
      Consistent(State())
    }

    /** A store holding the given indices and nothing else. */
    constructor (initial: set<string>)
      ensures Valid()
      ensures State() == StoreState(initial, map[], {}, map[]) && log == []
    {
      indices, aliases, compressed, merged := initial, map[], {}, map[];
      log := [];
    }

    /** `indices.get_indices()`: the names of the indices (aliases are not listed). */
    method GetIndices() returns (names: set<string>)
      ensures names == indices
    {
      names := indices;
    }

    method CreateIndexIfMissing(index: string)
      requires Valid()
      modifies this
      ensures Valid()
      ensures State() == Created(old(State()), index)
      ensures log == old(log) + [Call.CreateIndexIfMissing(index)]
    {
      indices := indices + {index};
      log := log + [Call.CreateIndexIfMissing(index)];
    }

    /** The store refuses an alias to a missing index, so callers must name an existing one. */
    method SetAlias(alias: string, index: string)
      requires Valid() && index in indices
      modifies this
      ensures Valid()
      ensures State() == Aliased(old(State()), alias, index)
      ensures log == old(log) + [Call.SetAlias(alias, index)]
    {
      aliases := aliases[alias := index];
      log := log + [Call.SetAlias(alias, index)];
    }

    method UpdateSettings(index: string, settings: IndexSettings)
      requires Valid() && index in indices
      modifies this
      ensures Valid()
      ensures State() == Settled(old(State()), index, settings)
      ensures log == old(log) + [Call.UpdateSettings(index, settings)]
    {
      if settings.storeCompressStored {
        compressed := compressed + {index};
      } else {
        compressed := compressed - {index};
      }
      log := log + [Call.UpdateSettings(index, settings)];
    }

    method Optimize(names: seq<string>, maxNumSegments: nat)
      requires Valid() && forall i :: i in names ==> i in indices
      modifies this
      ensures Valid()
      ensures State() == Merged(old(State()), names, maxNumSegments)
      ensures log == old(log) + [Call.Optimize(names, maxNumSegments)]
    {
      merged := map i | i in merged.Keys + (set j | j in names) ::
                  if i in names then maxNumSegments else merged[i];
      log := log + [Call.Optimize(names, maxNumSegments)];
    }

    method DeleteIndex(index: string)
      requires Valid()
      modifies this
      ensures Valid()
      ensures State() == Deleted(old(State()), index)
      ensures log == old(log) + [Call.DeleteIndex(index)]
    {
      indices := indices - {index};
      aliases := map a | a in aliases && aliases[a] != index :: aliases[a];
      compressed := compressed - {index};
      merged := merged - {index};
      log := log + [Call.DeleteIndex(index)];
    }
  }
}
