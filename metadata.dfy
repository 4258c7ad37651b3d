/**
 * Per-entity metadata: a mapping from property name to integer value.
 * Reading an absent property gives 0; a MetaData is a value, so every copy
 * handed out by the world model is detached from the stored one.
 */
module MetaDataStore {

  type MetaData = map<string, int>

  /** The value stored under `name`, or 0 when there is none. */
  function GetValue(md: MetaData, name: string): int
  {
    if name in md then md[name] else 0
  }

  predicate HasValue(md: MetaData, name: string)
  {
    name in md
  }

  /**
   * Key-by-key merge of a delta onto stored metadata: every key of the delta
   * overwrites, every other stored key is left as it was, nothing is removed.
   */
  function Merge(stored: MetaData, delta: MetaData): (r: MetaData)
    ensures r.Keys == stored.Keys + delta.Keys
    ensures forall k | k in delta :: r[k] == delta[k]
    ensures forall k | k in stored && k !in delta :: r[k] == stored[k]
  {
    stored + delta
  }

  /** Setting one value after a merge is merging a delta that holds that value too. */
  lemma MergeThenSet(stored: MetaData, delta: MetaData, name: string, value: int)
    ensures Merge(stored, delta)[name := value] == Merge(stored, delta[name := value])
  {
  }

  /** Merging an empty delta changes nothing. */
  lemma MergeEmpty(stored: MetaData)
    ensures Merge(stored, map[]) == stored
  {
  }
}
