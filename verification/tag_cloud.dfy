/** The tag cloud: each tag with its article count, coloured by its position. */
module TagCloud {
  import opened ClientTypes

  const TagTypes: seq<string> := ["primary", "success", "info", "warning", "danger"]

  /** An entry of the `articleTags` reply. */
  datatype TagCount = TagCount(tag: string, number: int)

  datatype CloudItem = CloudItem(tag: string, number: int, kind: string)

  /** The mapping `getTagCloudArray` applies to the reply. */
  function CloudArray(tags: seq<TagCount>): (r: seq<CloudItem>)
    ensures |r| == |tags|
    ensures forall i :: 0 <= i < |r| ==> r[i].tag == tags[i].tag && r[i].number == tags[i].number
    ensures forall i :: 0 <= i < |r| ==> r[i].kind == TagTypes[i % |TagTypes|]
  {
    seq(|tags|, i requires 0 <= i < |tags| => CloudItem(tags[i].tag, tags[i].number, TagTypes[i % |TagTypes|]))
  }

  /** Colours repeat every five tags, and neighbours never share one. */
  lemma ColoursCycle(tags: seq<TagCount>, i: nat)
    requires i + 1 < |tags|
    ensures CloudArray(tags)[i].kind != CloudArray(tags)[i + 1].kind
    ensures i + 5 < |tags| ==> CloudArray(tags)[i].kind == CloudArray(tags)[i + 5].kind
  {
    var r := CloudArray(tags);
    assert (i + 5) % 5 == i % 5;
    if i % 5 == 4 {
      assert (i + 1) % 5 == 0;
    } else {
      assert (i + 1) % 5 == i % 5 + 1;
    }
  }

  class Cloud {
    var tagCloudArray: seq<CloudItem>

    constructor ()
      ensures tagCloudArray == []
    {
      tagCloudArray := [];
    }

    /** A code-0 reply replaces the cloud; any other reply keeps it. */
    method GetTagCloudArray(reply: Envelope<seq<TagCount>>)
      modifies this
      ensures tagCloudArray == if reply.code == 0 then CloudArray(reply.data) else old(tagCloudArray)
    {
      if reply.code == 0 {
        tagCloudArray := CloudArray(reply.data);
      }
    }
  }
}
