/** Adj-RIBs-In: unprocessed announcements kept per neighbour and prefix. */
module RibsIn {
  import opened Wrappers
  import opened Enums
  import opened Prefixes
  import opened Announcements
  import opened Seqs

  /** An unprocessed announcement and the relationship it arrived over. */
  datatype AnnInfo = AnnInfo(unprocessedAnn: Ann, recvRel: Relationship)

  /** `neighbor -> {prefix -> AnnInfo}`; `order` lists the neighbours in the
      order they were first added, which is the dictionary's iteration order.
      Prefix keys compare by their stored network. */
  datatype Ribs = Ribs(order: seq<nat>, data: map<nat, map<Network, AnnInfo>>)

  /** `order` lists every neighbour key exactly once. */
  predicate Valid(r: Ribs) {
    Distinct(r.order)
    && (forall n :: n in r.order ==> n in r.data)
    && (forall n :: n in r.data ==> n in r.order)
  }

  const Empty: Ribs := Ribs([], map[])

  /** `get_unprocessed_ann_recv_rel`: None for a missing neighbour or prefix. */
  function Get(r: Ribs, neighbor: nat, prefix: Prefix): (info: Option<AnnInfo>)
    ensures info.Some? <==> neighbor in r.data && prefix.net in r.data[neighbor]
    ensures info.Some? ==> info.value == r.data[neighbor][prefix.net]
  {
    if neighbor in r.data && prefix.net in r.data[neighbor] then Some(r.data[neighbor][prefix.net])
    else None
  }

  /** `add_unprocessed_ann`: store under the path's first ASN, which is the
      sending neighbour; IndexError on an empty path. */
  function Add(r: Ribs, ann: Ann, rel: Relationship): (r': Result<Ribs>)
    requires Valid(r)
    ensures r'.Ok? <==> |ann.asPath| > 0
    ensures r'.Err? ==> r'.error == IndexError
    ensures r'.Ok? ==> Valid(r'.value)
  {
    if |ann.asPath| == 0 then Err(IndexError)
    else
      var n := ann.asPath[0];
      if n !in r.data then Ok(Ribs(r.order + [n], r.data[n := map[ann.prefix.net := AnnInfo(ann, rel)]]))
      else Ok(Ribs(r.order, r.data[n := r.data[n][ann.prefix.net := AnnInfo(ann, rel)]]))
  }

  /** After adding, the lookup for the sending neighbour and the prefix
      returns the new entry, and every other lookup is unchanged. */
  lemma AddThenGet(r: Ribs, ann: Ann, rel: Relationship, neighbor: nat, prefix: Prefix)
    requires Valid(r) && |ann.asPath| > 0
    ensures neighbor == ann.asPath[0] && prefix.net == ann.prefix.net ==>
              Get(Add(r, ann, rel).value, neighbor, prefix) == Some(AnnInfo(ann, rel))
    ensures neighbor != ann.asPath[0] || prefix.net != ann.prefix.net ==>
              Get(Add(r, ann, rel).value, neighbor, prefix) == Get(r, neighbor, prefix)
  {
  }

  /** `remove_entry`: deleting a missing neighbour or prefix is silently
      ignored. The neighbour key stays even when its last prefix goes. */
  function Remove(r: Ribs, neighbor: nat, prefix: Prefix): (r': Ribs)
    requires Valid(r)
    ensures Valid(r')
    ensures r'.order == r.order && r'.data.Keys == r.data.Keys
  {
    if neighbor in r.data && prefix.net in r.data[neighbor] then
      Ribs(r.order, r.data[neighbor := r.data[neighbor] - {prefix.net}])
    else r
  }

  /** After removing, the lookup gives None and every other lookup is
      unchanged; removing something absent changes nothing. */
  lemma RemoveThenGet(r: Ribs, neighbor: nat, prefix: Prefix, n: nat, p: Prefix)
    requires Valid(r)
    ensures Get(Remove(r, neighbor, prefix), neighbor, prefix) == None
    ensures n != neighbor || p.net != prefix.net ==> Get(Remove(r, neighbor, prefix), n, p) == Get(r, n, p)
    ensures Get(r, neighbor, prefix).None? ==> Remove(r, neighbor, prefix) == r
  {
  }

  /** The entries for `prefix`, neighbour by neighbour in `ns`. */
  function Collect(ns: seq<nat>, data: map<nat, map<Network, AnnInfo>>, prefix: Prefix): seq<AnnInfo> {
    if |ns| == 0 then []
    else
      var rest := Collect(ns[1..], data, prefix);
      if ns[0] in data && prefix.net in data[ns[0]] then [data[ns[0]][prefix.net]] + rest else rest
  }

  /** The neighbours of `ns` holding an entry for `prefix`. */
  function Holders(ns: seq<nat>, data: map<nat, map<Network, AnnInfo>>, prefix: Prefix): seq<nat> {
    if |ns| == 0 then []
    else
      var rest := Holders(ns[1..], data, prefix);
      if ns[0] in data && prefix.net in data[ns[0]] then [ns[0]] + rest else rest
  }

  /** `get_ann_infos(prefix)`: one entry per neighbour that holds the prefix,
      in neighbour order. */
  function GetAnnInfos(r: Ribs, prefix: Prefix): (infos: seq<AnnInfo>)
    requires Valid(r)
    ensures |infos| == |Holders(r.order, r.data, prefix)|
    ensures forall i :: 0 <= i < |infos| ==>
              var n := Holders(r.order, r.data, prefix)[i];
              n in r.data && prefix.net in r.data[n] && infos[i] == r.data[n][prefix.net]
  {
    CollectMatchesHolders(r.order, r.data, prefix);
    Collect(r.order, r.data, prefix)
  }

  lemma {:induction false} CollectMatchesHolders(ns: seq<nat>, data: map<nat, map<Network, AnnInfo>>, prefix: Prefix)
    ensures |Collect(ns, data, prefix)| == |Holders(ns, data, prefix)|
    ensures forall i :: 0 <= i < |Holders(ns, data, prefix)| ==>
              var n := Holders(ns, data, prefix)[i];
              n in data && prefix.net in data[n] && Collect(ns, data, prefix)[i] == data[n][prefix.net]
  {
    if |ns| > 0 {
      CollectMatchesHolders(ns[1..], data, prefix);
    }
  }

  /** Every neighbour holding the prefix appears exactly once among the
      holders, and nothing else does. */
  lemma {:induction false} HoldersExact(ns: seq<nat>, data: map<nat, map<Network, AnnInfo>>, prefix: Prefix)
    requires Distinct(ns)
    ensures forall n :: n in Holders(ns, data, prefix) <==> n in ns && n in data && prefix.net in data[n]
    ensures Distinct(Holders(ns, data, prefix))
  {
    if |ns| > 0 {
      HoldersExact(ns[1..], data, prefix);
      assert forall n :: n in ns[1..] ==> n != ns[0];
    }
  }

  /** `get_ann_infos` returns exactly one entry per neighbour that holds the
      prefix. */
  lemma GetAnnInfosOnePerNeighbor(r: Ribs, prefix: Prefix)
    requires Valid(r)
    ensures |GetAnnInfos(r, prefix)| == |set n | n in r.data && prefix.net in r.data[n]|
    ensures forall n :: n in r.data && prefix.net in r.data[n] ==> r.data[n][prefix.net] in GetAnnInfos(r, prefix)
  {
    var hs := Holders(r.order, r.data, prefix);
    HoldersExact(r.order, r.data, prefix);
    DistinctSeqCard(hs);
    assert Elems(hs) == (set n | n in r.data && prefix.net in r.data[n]);
    forall n | n in r.data && prefix.net in r.data[n]
      ensures r.data[n][prefix.net] in GetAnnInfos(r, prefix)
    {
      var i :| 0 <= i < |hs| && hs[i] == n;
      assert GetAnnInfos(r, prefix)[i] == r.data[n][prefix.net];
    }
  }
}
