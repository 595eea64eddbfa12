/**
  Deterministic identifiers and content hashes. UUIDv5 (under the project's fixed namespace) and
  SHA-256 are not computed here: they are parameters, so every property below holds for any
  hash functions, and the few that need collision freedom say so in their `requires`.
*/
module StableIds {
  import opened Strings

  /** The namespace UUID the source passes to uuid5. */
  const Namespace := "2e6b18fd-1f64-4f75-9f3d-1a4e2a4e5f6c"

  /**
    `uuid5` is `str(uuid.uuid5(Namespace, name))` as a function of the name, and `sha256Hex`
    is the lower-case hex digest of the UTF-8 encoding of its argument.
  */
  datatype Hashes = Hashes(uuid5: string -> string, sha256Hex: string -> string)

  ghost predicate Injective(f: string -> string) {
    forall a, b :: f(a) == f(b) ==> a == b
  }

  /** The name that is hashed: the three parts joined by ':' with no escaping. */
  function StableName(runName: string, objectType: string, canonicalKey: string): (n: string)
    ensures |n| == |runName| + |objectType| + |canonicalKey| + 2
    ensures n[..|runName|] == runName && n[|runName|] == ':'
    ensures n[|n| - |canonicalKey|..] == canonicalKey
  {
    runName + ":" + objectType + ":" + canonicalKey
  }

  function StableUuid(h: Hashes, runName: string, objectType: string, canonicalKey: string): string {
    h.uuid5(StableName(runName, objectType, canonicalKey))
  }

  function Sha256Hex(h: Hashes, value: string): string {
    h.sha256Hex(value)
  }

  function ContentHash(h: Hashes, text: string): string {
    Sha256Hex(h, Trim(text))
  }

  /** The id depends on the three parts only through the joined name. */
  lemma StableUuidOnlyThroughName(h: Hashes, r1: string, t1: string, k1: string,
                                  r2: string, t2: string, k2: string)
    requires StableName(r1, t1, k1) == StableName(r2, t2, k2)
    ensures StableUuid(h, r1, t1, k1) == StableUuid(h, r2, t2, k2)
  {
  }

  /** Because ':' is not escaped, moving a colon between parts does not change the id. */
  lemma ColonAmbiguity(h: Hashes, key: string)
    ensures StableUuid(h, "a:b", "c", key) == StableUuid(h, "a", "b:c", key)
  {
    assert StableName("a:b", "c", key) == StableName("a", "b:c", key);
  }

  /** The name determines the key once run name and object type are fixed. */
  lemma {:induction false} StableNameKeyInjective(runName: string, objectType: string, k1: string, k2: string)
    requires StableName(runName, objectType, k1) == StableName(runName, objectType, k2)
    ensures k1 == k2
  {
    var p := runName + ":" + objectType + ":";
    assert StableName(runName, objectType, k1) == p + k1;
    assert StableName(runName, objectType, k2) == p + k2;
    assert (p + k1)[|p|..] == k1;
    assert (p + k2)[|p|..] == k2;
  }

  /** Under a collision-free uuid5, distinct keys of one run and type get distinct ids. */
  lemma DistinctKeysDistinctIds(h: Hashes, runName: string, objectType: string, k1: string, k2: string)
    requires Injective(h.uuid5)
    requires k1 != k2
    ensures StableUuid(h, runName, objectType, k1) != StableUuid(h, runName, objectType, k2)
  {
    if StableUuid(h, runName, objectType, k1) == StableUuid(h, runName, objectType, k2) {
      StableNameKeyInjective(runName, objectType, k1, k2);
    }
  }

  /** Leading and trailing whitespace never changes the content hash. */
  lemma ContentHashIgnoresPadding(h: Hashes, pre: string, text: string, post: string)
    requires forall i :: 0 <= i < |pre| ==> IsSpace(pre[i])
    requires forall i :: 0 <= i < |post| ==> IsSpace(post[i])
    ensures ContentHash(h, pre + text + post) == ContentHash(h, text)
  {
    TrimIgnoresPadding(pre, text, post);
  }
}
