/** Turning a resource's list of key/value tags into the `tags` column's map. */
module Tags {
  import opened Wrappers

  /** A resource tag. The cloud API always sets both strings. */
  datatype Tag = Tag(key: string, value: string)

  /** The map the tag list denotes: tags are applied in list order, so a later
      tag overwrites an earlier one with the same key. */
  function TagMap(tags: seq<Tag>): map<string, string> {
    if tags == [] then map[]
    else
      var last := tags[|tags| - 1];
      TagMap(tags[..|tags| - 1])[last.key := last.value]
  }

  /** The keys that occur in a tag list. */
  function TagKeys(tags: seq<Tag>): set<string> {
    set i | 0 <= i < |tags| :: tags[i].key
  }

  /** The map has exactly the keys of the list. */
  lemma {:induction false} TagMapKeys(tags: seq<Tag>)
    ensures TagMap(tags).Keys == TagKeys(tags)
    decreases |tags|
  {
    if tags != [] {
      var init := tags[..|tags| - 1];
      TagMapKeys(init);
      forall k | k in TagKeys(tags) ensures k in TagMap(tags) {
        var i :| 0 <= i < |tags| && tags[i].key == k;
        if i < |init| {
          assert init[i].key == k;
        }
      }
      forall k | k in TagMap(tags) ensures k in TagKeys(tags) {
        if k in TagKeys(init) {
          var i :| 0 <= i < |init| && init[i].key == k;
          assert tags[i].key == k;
        }
      }
    }
  }

  /** Each key maps to the value of its last occurrence in the list. */
  lemma {:induction false} TagMapLastWins(tags: seq<Tag>, i: nat)
    requires i < |tags|
    requires forall j :: i < j < |tags| ==> tags[j].key != tags[i].key
    ensures tags[i].key in TagMap(tags)
    ensures TagMap(tags)[tags[i].key] == tags[i].value
    decreases |tags|
  {
    var init := tags[..|tags| - 1];
    if i < |init| {
      TagMapLastWins(init, i);
    }
  }

  /** The map holds no value that is not some tag's value for that key. */
  lemma {:induction false} TagMapValuesFromTags(tags: seq<Tag>, k: string)
    requires k in TagMap(tags)
    ensures exists i :: 0 <= i < |tags| && tags[i] == Tag(k, TagMap(tags)[k])
    decreases |tags|
  {
    var init := tags[..|tags| - 1];
    var last := tags[|tags| - 1];
    if k != last.key {
      TagMapValuesFromTags(init, k);
      var i :| 0 <= i < |init| && init[i] == Tag(k, TagMap(init)[k]);
      assert tags[i] == init[i];
    } else {
      assert tags[|tags| - 1] == Tag(k, TagMap(tags)[k]);
    }
  }

  /** Converts a tag slice to the tag map: a nil slice gives no map (nil), a
      non-nil one, even an empty one, a map built by filling it in list order. */
  method TagListToTags(tagList: Slice<Tag>) returns (tags: Option<map<string, string>>)
    ensures tags.None? <==> tagList.None?
    ensures tagList.Some? ==> tags == Some(TagMap(tagList.value))
  {
    if tagList.None? {
      return None;
    }
    var list := tagList.value;
    var m: map<string, string> := map[];
    var i := 0;
    while i < |list|
      invariant 0 <= i <= |list|
      invariant m == TagMap(list[..i])
    {
      assert list[..i + 1][..i] == list[..i];
      m := m[list[i].key := list[i].value];
      i := i + 1;
    }
    assert list[..|list|] == list;
    tags := Some(m);
  }
}
