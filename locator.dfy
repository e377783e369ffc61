/**
 * Identity resolution and message text (event/locator.go): which name stands for an
 * IP address in a notification and in the drop counter, the notification text, and
 * the lookup of a pod by IP in the informer's index.
 *
 * The informer's index is a value: index name to (index key to pods). The DNS resolver
 * is a map from IP to the names found or a lookup error; an IP it does not hold
 * resolves to no names.
 */
module EventLocator {
  import opened Wrappers
  import opened Text
  import Envar

  /** The fields of a pod that the pipeline reads. */
  datatype Pod = Pod(
    name: string,
    namespace: string,
    labels: map<string, string>,
    hostNetwork: bool,
    nodeName: string,
    podIP: string)

  /** Go's `TrafficDirection int`: `send` is 0 and `receive` is 1; other values exist too. */
  type TrafficDirection = int

  const Send: TrafficDirection := 0
  const Receive: TrafficDirection := 1

  /** The name of a direction; any value other than send and receive has the empty name. */
  function DirectionName(td: TrafficDirection): (r: string)
    ensures r != [] <==> td == Send || td == Receive
    ensures td == Send ==> r == "SEND"
    ensures td == Receive ==> r == "RECEIVE"
  {
    if td == Send then "SEND" else if td == Receive then "RECEIVE" else ""
  }

  const IndexerName := "podIp"

  /** podIPIndexer: the keys a pod is filed under in the "podIp" index. */
  function PodIPIndexKeys(pod: Pod): (keys: seq<string>)
    ensures forall k :: k in keys <==> k == pod.podIP
  {
    [pod.podIP]
  }

  /** An informer index: for each index name, the pods filed under each key. */
  datatype PodIndexer = PodIndexer(indices: map<string, map<string, seq<Pod>>>)

  /** `Indexer.ByIndex`: an error for an unknown index name, no pods for an unknown key. */
  function ByIndex(indexer: PodIndexer, indexName: string, key: string): Result<seq<Pod>>
  {
    if indexName !in indexer.indices then Failure("Index with name " + indexName + " does not exist")
    else
      var index := indexer.indices[indexName];
      Success(if key in index then index[key] else [])
  }

  /** LocatePod: an index error is an error, otherwise the first pod filed under the IP, if any. */
  function LocatePod(indexer: PodIndexer, ip: string): (r: Result<Option<Pod>>)
    ensures r.Failure? <==> ByIndex(indexer, IndexerName, ip).Failure?
    ensures r.Failure? ==> r.error == "Error looking up pod: ip=" + ip
    ensures r == Success(None) <==> ByIndex(indexer, IndexerName, ip) == Success([])
    ensures r.Success? && r.value.Some? ==>
      var items := ByIndex(indexer, IndexerName, ip).value;
      items != [] && r.value.value == items[0]
  {
    match ByIndex(indexer, IndexerName, ip)
    case Failure(_) => Failure("Error looking up pod: ip=" + ip)
    case Success(items) => if |items| > 0 then Success(Some(items[0])) else Success(None)
  }

  /**
   * The pods of a store filed under `key`, in the order of the sequence. The informer
   * keeps a key's pods in a set, so the order `ByIndex` lists them in is not fixed;
   * the sequence stands for whichever order it yields.
   */
  function FiledUnder(pods: seq<Pod>, key: string): (r: seq<Pod>)
    ensures forall p :: p in r <==> p in pods && key in PodIPIndexKeys(p)
  {
    if pods == [] then []
    else (if key in PodIPIndexKeys(pods[0]) then [pods[0]] else []) + FiledUnder(pods[1..], key)
  }

  /** The "podIp" index the informer keeps over a store of pods. */
  function PodIPIndex(pods: seq<Pod>): map<string, seq<Pod>>
  {
    map key | key in (set p | p in pods :: p.podIP) :: FiledUnder(pods, key)
  }

  function InformerOf(pods: seq<Pod>): PodIndexer
  {
    PodIndexer(map[IndexerName := PodIPIndex(pods)])
  }

  /** Every pod of the store is filed under its own PodIP and under no other key. */
  lemma IndexedUnderPodIPOnly(pods: seq<Pod>, pod: Pod, key: string)
    requires pod in pods
    ensures pod.podIP in PodIPIndex(pods) && pod in PodIPIndex(pods)[pod.podIP]
    ensures key in PodIPIndex(pods) && pod in PodIPIndex(pods)[key] ==> key == pod.podIP
  {
  }

  /** The first pod of the sequence with the given PodIP, if any. */
  function FirstWithIP(pods: seq<Pod>, ip: string): (r: Option<Pod>)
    ensures r.None? <==> forall p :: p in pods ==> p.podIP != ip
    ensures r.Some? ==> r.value in pods && r.value.podIP == ip
  {
    if pods == [] then None
    else if pods[0].podIP == ip then Some(pods[0])
    else FirstWithIP(pods[1..], ip)
  }

  lemma {:induction false} FiledUnderStartsWithFirst(pods: seq<Pod>, ip: string)
    ensures FiledUnder(pods, ip) == [] <==> FirstWithIP(pods, ip).None?
    ensures FiledUnder(pods, ip) != [] ==> FiledUnder(pods, ip)[0] == FirstWithIP(pods, ip).value
  {
    if pods != [] {
      FiledUnderStartsWithFirst(pods[1..], ip);
    }
  }

  /**
   * Over an informer that indexes a store of pods, LocatePod never fails and finds the
   * first pod of the sequence whose PodIP is the IP, or none when no pod has it; when
   * several pods share the IP, which one is first is up to the order the index yields.
   */
  lemma LocatePodInStore(pods: seq<Pod>, ip: string)
    ensures LocatePod(InformerOf(pods), ip) == Success(FirstWithIP(pods, ip))
  {
    var index := PodIPIndex(pods);
    var filed := if ip in index then index[ip] else [];
    assert ByIndex(InformerOf(pods), IndexerName, ip) == Success(filed);
    assert filed == FiledUnder(pods, ip) by {
      if ip !in index {
        forall p | p in pods
          ensures p.podIP != ip
        {
          assert p.podIP in (set q | q in pods :: q.podIP);
        }
        FiledUnderStartsWithFirst(pods, ip);
      }
    }
    FiledUnderStartsWithFirst(pods, ip);
  }

  /** The DNS resolver: names found for an IP, or a lookup error. */
  type Resolver = map<string, Result<seq<string>>>

  function LookupAddr(resolver: Resolver, ip: string): Result<seq<string>>
  {
    if ip in resolver then resolver[ip] else Success([])
  }

  /** The host name of an IP: the first name DNS finds, or the IP itself when none or on error. */
  function GetHostName(resolver: Resolver, ipAddress: string): (name: string)
    ensures name == ipAddress || (LookupAddr(resolver, ipAddress).Success? && name in LookupAddr(resolver, ipAddress).value)
    ensures LookupAddr(resolver, ipAddress).Failure? || LookupAddr(resolver, ipAddress).value == [] ==>
      name == ipAddress
    ensures LookupAddr(resolver, ipAddress).Success? && LookupAddr(resolver, ipAddress).value != [] ==>
      name == LookupAddr(resolver, ipAddress).value[0]
  {
    match LookupAddr(resolver, ipAddress)
    case Failure(_) => ipAddress
    case Success(addr) => if |addr| == 0 then ipAddress else addr[0]
  }

  /**
   * The name standing for an IP: for a pod on its own network, its name, a label's
   * value (the name when the label is missing) or its namespace, by identity mode;
   * for a host-network pod, its node name; otherwise, or when that node name is
   * empty, the host name from DNS.
   */
  function GetNamespaceOrHostName(pod: Option<Pod>, ip: string, resolver: Resolver, settings: Envar.Settings): (name: string)
    ensures pod.Some? && !pod.value.hostNetwork ==>
      name == pod.value.name || name == pod.value.namespace || name in pod.value.labels.Values
  {
    if pod.Some? && !pod.value.hostNetwork then
      var p := pod.value;
      match settings.podIdentifier
      case "name" => p.name
      case "label" =>
        if settings.podIdentifierLabel in p.labels then
          assert p.labels[settings.podIdentifierLabel] in p.labels.Values;
          p.labels[settings.podIdentifierLabel]
        else p.name
      case "namespace" => p.namespace
      case _ => p.namespace
    else if pod.Some? && pod.value.nodeName != "" then pod.value.nodeName
    else GetHostName(resolver, ip)
  }

  /** A pod on its own network is named by the identity mode alone, never by DNS. */
  lemma PodIdentityByMode(pod: Pod, ip: string, resolver: Resolver, settings: Envar.Settings)
    requires !pod.hostNetwork
    ensures var name := GetNamespaceOrHostName(Some(pod), ip, resolver, settings);
      && (settings.podIdentifier == "name" ==> name == pod.name)
      && (settings.podIdentifier == "label" ==>
            name == (if settings.podIdentifierLabel in pod.labels then pod.labels[settings.podIdentifierLabel] else pod.name))
      && (settings.podIdentifier != "name" && settings.podIdentifier != "label" ==> name == pod.namespace)
  {
  }

  /** The default identity mode names a pod on its own network by its namespace. */
  lemma DefaultIdentityIsNamespace(pod: Pod, ip: string, resolver: Resolver)
    requires !pod.hostNetwork
    ensures GetNamespaceOrHostName(Some(pod), ip, resolver, Envar.Defaults) == pod.namespace
  {
  }

  /** A host-network pod with a node name is named by that node. */
  lemma HostNetworkPodIsItsNode(pod: Pod, ip: string, resolver: Resolver, settings: Envar.Settings)
    requires pod.hostNetwork && pod.nodeName != ""
    ensures GetNamespaceOrHostName(Some(pod), ip, resolver, settings) == pod.nodeName
  {
  }

  /** No pod, or a host-network pod without a node name, falls through to DNS. */
  lemma UnknownEndpointResolvedByDns(pod: Option<Pod>, ip: string, resolver: Resolver, settings: Envar.Settings)
    requires pod.None? || (pod.value.hostNetwork && pod.value.nodeName == "")
    ensures GetNamespaceOrHostName(pod, ip, resolver, settings) == GetHostName(resolver, ip)
  {
  }

  /**
   * The name always comes from one of the sources: the pod's name, namespace, a label
   * value, its node, a DNS name of the IP, or the IP itself.
   */
  lemma IdentityHasKnownSource(pod: Option<Pod>, ip: string, resolver: Resolver, settings: Envar.Settings)
    ensures var name := GetNamespaceOrHostName(pod, ip, resolver, settings);
      || (pod.Some? && (name == pod.value.name || name == pod.value.namespace
                        || name in pod.value.labels.Values || name == pod.value.nodeName))
      || name == ip
      || (LookupAddr(resolver, ip).Success? && name in LookupAddr(resolver, ip).value)
  {
    if pod.Some? && !pod.value.hostNetwork && pod.value.labels != map[] {
      var p := pod.value;
      if settings.podIdentifier == "label" && settings.podIdentifierLabel in p.labels {
        assert p.labels[settings.podIdentifierLabel] in p.labels.Values;
      }
    }
  }

  /** The phrase naming the traffic direction in a message. */
  function DirectionPhrase(direction: TrafficDirection): string
  {
    if direction == Receive then " when receiving traffic from "
    else if direction == Send then " when sending traffic to "
    else ""
  }

  /**
   * The notification text: "Packet dropped", the direction phrase, the other side's
   * name, then " (ip)" when the name is not the IP itself and the IP is known.
   */
  function GetPacketDropMessage(otherSideServiceName: string, ip: string, direction: TrafficDirection): (msg: string)
    ensures HasPrefix(msg, "Packet dropped" + DirectionPhrase(direction) + otherSideServiceName)
    ensures var head := "Packet dropped" + DirectionPhrase(direction) + otherSideServiceName;
      msg[|head|..] == if otherSideServiceName != ip && ip != "" then " (" + ip + ")" else ""
  {
    var head := "Packet dropped" + DirectionPhrase(direction) + otherSideServiceName;
    if otherSideServiceName != ip && ip != "" then head + " (" + ip + ")" else head
  }

  /** For one direction and one IP, the message tells which name stood for the other side. */
  lemma MessageDeterminesName(name1: string, name2: string, ip: string, direction: TrafficDirection)
    requires GetPacketDropMessage(name1, ip, direction) == GetPacketDropMessage(name2, ip, direction)
    ensures name1 == name2
  {
    var phrase := "Packet dropped" + DirectionPhrase(direction);
    var msg := GetPacketDropMessage(name1, ip, direction);
    var tagged1 := name1 != ip && ip != "";
    var tagged2 := name2 != ip && ip != "";
    var suffix := " (" + ip + ")";
    assert |msg| == |phrase| + |name1| + (if tagged1 then |suffix| else 0);
    assert |msg| == |phrase| + |name2| + (if tagged2 then |suffix| else 0);
    // an untagged name is the IP itself, so the lengths rule out one tagged and one not
    assert tagged1 == tagged2;
    assert msg[|phrase|..|phrase| + |name1|] == name1;
    assert msg[|phrase|..|phrase| + |name2|] == name2;
  }

  /** The message of a drop whose other side resolved to its bare IP carries no suffix. */
  lemma BareIpMessage(ip: string, direction: TrafficDirection)
    ensures GetPacketDropMessage(ip, ip, direction) == "Packet dropped" + DirectionPhrase(direction) + ip
  {
  }
}
