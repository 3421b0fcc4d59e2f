/** The service side of the registry (client_dc.py): the `(service, backend)`
    key and value codec, address validation, the service node's hooks for
    the liveness round, the choice made by `find_service_addr`, and the
    parsing of the command-line neighbour and service lists. */
module ClientDc {
  import opened Wrappers
  import opened Strings
  import opened Storage
  import Node

  datatype BackendType = Cpu | Gpu
  {
    /** The member's `.value`. */
    function Value(): string
    {
      match this
      case Cpu => "cpu"
      case Gpu => "gpu"
    }
  }

  datatype ServiceType = Asr | Tts
  {
    /** The member's `.value`. */
    function Value(): string
    {
      match this
      case Asr => "asr"
      case Tts => "tts"
    }
  }

  /** `BackendType(value)`: the member with that value; any other string
      raises `ValueError`. */
  function BackendOf(value: string): (r: Result<BackendType>)
    ensures r.Ok? <==> value == "cpu" || value == "gpu"
    ensures r.Ok? ==> r.value.Value() == value
    ensures r.Err? ==> r.error.ValueError?
  {
    if value == "cpu" then Ok(Cpu)
    else if value == "gpu" then Ok(Gpu)
    else Err(ValueError(value + " is not a valid BackendType"))
  }

  /** `ServiceType(value)`: the member with that value; any other string
      raises `ValueError`. */
  function ServiceOf(value: string): (r: Result<ServiceType>)
    ensures r.Ok? <==> value == "asr" || value == "tts"
    ensures r.Ok? ==> r.value.Value() == value
    ensures r.Err? ==> r.error.ValueError?
  {
    if value == "asr" then Ok(Asr)
    else if value == "tts" then Ok(Tts)
    else Err(ValueError(value + " is not a valid ServiceType"))
  }

  /** The address prefixes a node may not advertise. */
  const LoopbackPrefixes: seq<string> := ["localhost", "127.0.0.1"]

  /** `validate_service_address`: an address is refused when it starts
      with one of the loopback prefixes. */
  function ValidateServiceAddress(address: string): (ok: bool)
    ensures !ok <==> "localhost" <= address || "127.0.0.1" <= address
  {
    assert LoopbackPrefixes[0] == "localhost" && LoopbackPrefixes[1] == "127.0.0.1";
    !exists i :: 0 <= i < |LoopbackPrefixes| && LoopbackPrefixes[i] <= address
  }

  /** `generate_service_key`: the DHT key of a `(service, backend)` pair. */
  function GenerateServiceKey(service: ServiceType, backend: BackendType): (key: string)
    ensures Split(key, '/') == [service.Value(), backend.Value()]
  {
    var parts := [service.Value(), backend.Value()];
    assert parts[1..] == [backend.Value()];
    SplitJoin(parts, '/');
    service.Value() + "/" + backend.Value()
  }

  /** `generate_service_item`: the key and the value published for an
      address. */
  function GenerateServiceItem(service: ServiceType, backend: BackendType, address: string): (item: (string, string))
    ensures item.0 == GenerateServiceKey(service, backend)
    ensures item.1 == item.0 + "/" + address
  {
    (service.Value() + "/" + backend.Value(), service.Value() + "/" + backend.Value() + "/" + address)
  }

  /** `parse_storage_value`: a value is `service/backend/address`, three
      pieces around exactly two separators; outside debug mode a loopback
      address is refused as well. */
  function ParseStorageValue(value: string, debug: bool): (r: Option<(string, string, string)>)
    ensures r.Some? <==> Count(value, '/') == 2 && (debug || ValidateServiceAddress(Split(value, '/')[2]))
    ensures r.Some? ==> value == r.value.0 + "/" + r.value.1 + "/" + r.value.2
    ensures r.Some? ==> '/' !in r.value.0 && '/' !in r.value.1 && '/' !in r.value.2
  {
    var parts := Split(value, '/');
    if |parts| != 3 then None
    else if !debug && !ValidateServiceAddress(parts[2]) then None
    else
      JoinSplit(value, '/');
      JoinThree(parts, '/');
      Some((parts[0], parts[1], parts[2]))
  }

  /** The key is the first half of the published item. */
  lemma ItemKeyIsServiceKey(service: ServiceType, backend: BackendType, address: string)
    ensures GenerateServiceItem(service, backend, address).0 == GenerateServiceKey(service, backend)
  {
  }

  /** Different `(service, backend)` pairs get different keys. */
  lemma {:induction false} ServiceKeyInjective(s1: ServiceType, b1: BackendType, s2: ServiceType, b2: BackendType)
    requires GenerateServiceKey(s1, b1) == GenerateServiceKey(s2, b2)
    ensures s1 == s2 && b1 == b2
  {
    var k := GenerateServiceKey(s1, b1);
    assert k[0] == s1.Value()[0] == s2.Value()[0];
    assert k[4] == b1.Value()[0] == b2.Value()[0];
  }

  /** Decoding a published value gives back its service, backend and
      address, for any address without the separator that validation (or
      debug mode) accepts. */
  lemma {:induction false} ParseGeneratedItem(service: ServiceType, backend: BackendType, address: string, debug: bool)
    requires '/' !in address
    requires debug || ValidateServiceAddress(address)
    ensures ParseStorageValue(GenerateServiceItem(service, backend, address).1, debug)
      == Some((service.Value(), backend.Value(), address))
  {
    SplitThree(service.Value(), backend.Value(), address, '/');
  }

  /** Conversely, a value that decodes into known enum members is exactly
      the item generated from them: the canonical re-encoding of a value is
      the value itself. */
  lemma GeneratedFromParsed(value: string, debug: bool)
    requires ParseStorageValue(value, debug).Some?
    requires ServiceOf(ParseStorageValue(value, debug).value.0).Ok?
    requires BackendOf(ParseStorageValue(value, debug).value.1).Ok?
    ensures GenerateServiceItem(ServiceOf(ParseStorageValue(value, debug).value.0).value,
      BackendOf(ParseStorageValue(value, debug).value.1).value, ParseStorageValue(value, debug).value.2).1 == value
  {
  }

  /** `validate_storage_value` of the service node: `ServiceType(service)`
      raises for an unknown service, so the `else` branch is never reached;
      the probe matching the service is run (`probe` says whether it
      answered with JSON other than `null`); `generate_service_item` then raises
      for an unknown backend; otherwise the answer is the re-encoded value
      when the probe answered and `None` when it did not. */
  function ValidateStorageValue(parsedValue: (string, string, string), probe: (ServiceType, string) -> bool): (r: Result<Option<string>>)
    ensures r.Err? <==> ServiceOf(parsedValue.0).Err? || BackendOf(parsedValue.1).Err?
    ensures r.Err? ==> r.error.ValueError?
    ensures r.Ok? ==> (r.value.Some? <==> probe(ServiceOf(parsedValue.0).value, parsedValue.2))
    ensures r.Ok? && r.value.Some? ==> r.value.value == parsedValue.0 + "/" + parsedValue.1 + "/" + parsedValue.2
  {
    var (service, backend, address) := parsedValue;
    match ServiceOf(service)
    case Err(e) => Err(e)
    case Ok(s) =>
      var response := probe(s, address);
      match BackendOf(backend)
      case Err(e) => Err(e)
      case Ok(b) =>
        var (_, value) := GenerateServiceItem(s, b, address);
        Ok(if response then Some(value) else None)
  }

  /** A decoded value: service, backend and address. */
  type Parsed = (string, string, string)

  /** The service node's hooks, as handed to the liveness round. */
  function DcParse(debug: bool): string -> Option<Parsed>
  {
    v => ParseStorageValue(v, debug)
  }

  function DcValidate(probe: (ServiceType, string) -> bool): Parsed -> Result<Option<string>>
  {
    p => ValidateStorageValue(p, probe)
  }

  /** A stored value that survives the service node's round: it decodes,
      names a known service and backend, and its probe answers. */
  predicate Live(v: string, debug: bool, probe: (ServiceType, string) -> bool)
  {
    var p := ParseStorageValue(v, debug);
    p.Some? && ServiceOf(p.value.0).Ok? && BackendOf(p.value.1).Ok? && probe(ServiceOf(p.value.0).value, p.value.2)
  }

  /** A stored value that makes the service node's round raise: it decodes,
      but names an unknown service or backend. */
  predicate Poisonous(v: string, debug: bool)
  {
    var p := ParseStorageValue(v, debug);
    p.Some? && (ServiceOf(p.value.0).Err? || BackendOf(p.value.1).Err?)
  }

  /** The values the service node confirms are exactly the live ones among
      the values it checked: a confirmed value is re-encoded into itself. */
  lemma {:induction false} DcCheckedIsLive(values: set<string>, debug: bool, probe: (ServiceType, string) -> bool)
    ensures forall w :: w in Node.Checked(values, DcParse(debug), DcValidate(probe)) <==> w in values && Live(w, debug, probe)
  {
    forall w ensures w in Node.Checked(values, DcParse(debug), DcValidate(probe)) <==> w in values && Live(w, debug, probe) {
      Node.CheckedMembers(values, DcParse(debug), DcValidate(probe), w);
      if w in values && Live(w, debug, probe) {
        assert Node.Confirms(w, w, DcParse(debug), DcValidate(probe));
      }
      if w in Node.Checked(values, DcParse(debug), DcValidate(probe)) {
        var v :| v in values && Node.Confirms(v, w, DcParse(debug), DcValidate(probe));
        assert v == w;
      }
    }
  }

  /** The service node's round raises exactly when some stored value is
      poisonous. */
  lemma DcRoundRaises(values: set<string>, debug: bool, probe: (ServiceType, string) -> bool)
    ensures Node.RoundRaises(values, DcParse(debug), DcValidate(probe)) <==> exists v :: v in values && Poisonous(v, debug)
  {
    if exists v :: v in values && Poisonous(v, debug) {
      var v :| v in values && Poisonous(v, debug);
      assert DcParse(debug)(v).Some? && DcValidate(probe)(DcParse(debug)(v).value).Err?;
    }
  }

  /** After a completed round of the service node, a value whose probe
      fails (or that does not decode) is under no key, however many keys
      held it, and a live value stays under every key that held it. */
  lemma {:induction false} DcRoundPrunesDead<K>(m: map<K, set<string>>, debug: bool, probe: (ServiceType, string) -> bool, k: K, v: string)
    requires k in m && v in m[k]
    ensures v in Stored(Node.Pruned(m, Node.Checked(Node.AllValues(m), DcParse(debug), DcValidate(probe))), k) <==> Live(v, debug, probe)
  {
    DcCheckedIsLive(Node.AllValues(m), debug, probe);
    assert v in Node.AllValues(m);
  }

  /** The service node: a registry node with debug mode and the service
      hooks. */
  class DCNode<K(==)> {
    const node: Node.MultiValueNode<K>
    const debug: bool

    constructor (port: int, neighbours: seq<(string, int)>, storageItems: map<string, string>, digest: string -> K, debug: bool)
      ensures fresh(node) && fresh(node.storage) && node.storage.Valid() && node.storage.data == map[]
      ensures node.port == port && node.neighbours == neighbours && node.storageItems == storageItems
      ensures node.digest == digest && this.debug == debug
    {
      node := new Node.MultiValueNode(port, neighbours, storageItems, digest);
      this.debug := debug;
    }

    /** `find_service_addr`: a shallow lookup of the pair's key (`remote`
        is the crawl's answer if one is needed), then the address of one
        value picked at random. An empty lookup raises from
        `random.choice`; a picked value that does not decode raises
        "invalid service address". */
    method FindServiceAddr(service: ServiceType, backend: BackendType, remote: Option<seq<string>>) returns (r: Result<string>)
      ensures var found := Node.LookupResult(Stored(node.storage.data, node.digest(GenerateServiceKey(service, backend))), true, remote);
        && (found == {} ==> r == Err(IndexError))
        && (r.Ok? ==> exists v :: v in found && ParseStorageValue(v, debug).Some? && ParseStorageValue(v, debug).value.2 == r.value)
        && (r.Err? && found != {} ==>
              r.error == RuntimeError("invalid service address") && exists v :: v in found && ParseStorageValue(v, debug).None?)
        && (found != {} && (forall v :: v in found ==> ParseStorageValue(v, debug).Some?) ==> r.Ok?)
    {
      var key := GenerateServiceKey(service, backend);
      var nodes := node.GetMultiValue(key, true, remote);
      if |nodes| == 0 {
        return Err(IndexError);
      }
      assert nodes[0] in Elems(nodes);
      var i :| 0 <= i < |nodes|;
      assert nodes[i] in Elems(nodes);
      var parsedValue := ParseStorageValue(nodes[i], debug);
      if parsedValue.None? {
        return Err(RuntimeError("invalid service address"));
      }
      r := Ok(parsedValue.value.2);
    }

    /** The inherited `ping_node_storage` with the service hooks: a round
        either raises, when a stored value is poisonous, and writes
        nothing, or leaves every key with exactly its live values. */
    method PingNodeStorage(probe: (ServiceType, string) -> bool) returns (r: Outcome)
      requires node.storage.Valid()
      modifies node.storage
      ensures node.storage.Valid()
      ensures r.Fail? <==> exists v :: v in Node.AllValues(old(node.storage.data)) && Poisonous(v, debug)
      ensures r.Fail? ==> node.storage.data == old(node.storage.data) && r.error.ValueError?
      ensures r.Pass? ==> node.storage.data.Keys <= old(node.storage.data).Keys
      ensures r.Pass? ==> forall k :: k in old(node.storage.data) ==>
        Stored(node.storage.data, k) == set v | v in old(node.storage.data)[k] && Live(v, debug, probe)
    {
      ghost var m := node.storage.data;
      DcRoundRaises(Node.AllValues(m), debug, probe);
      DcCheckedIsLive(Node.AllValues(m), debug, probe);
      r := node.PingNodeStorage(DcParse(debug), DcValidate(probe));
      if r.Pass? {
        forall k | k in m ensures Stored(node.storage.data, k) == set v | v in m[k] && Live(v, debug, probe) {
          forall v | v in m[k] ensures v in Node.AllValues(m) { }
        }
      } else {
        ghost var v :| v in Node.AllValues(m) && DcParse(debug)(v).Some? && DcValidate(probe)(DcParse(debug)(v).value) == Err(r.error);
      }
    }
  }

  /** One neighbour of `parse_addr_list` as written: unpack on ":" (which
      raises unless there are exactly two pieces), then — only if the item
      is non-empty — `(address.strip(), int(port))`; `None` means skipped. */
  function NeighbourAsWritten(item: string): (r: Result<Option<(string, int)>>)
    ensures r.Err? <==> Count(item, ':') != 1 || ParseInt(Split(item, ':')[1]).None?
    ensures r.Err? ==> r.error.ValueError?
    ensures r.Ok? ==> (r.value.Some? && r.value.value.0 == Strip(Split(item, ':')[0])
                       && ParseInt(Split(item, ':')[1]) == Some(r.value.value.1))
  {
    var parts := Split(item, ':');
    if |parts| != 2 then Err(ValueError("not exactly one ':' to unpack"))
    else if |item| > 0 then
      match ParseInt(parts[1])
      case None => Err(ValueError("invalid literal for int()"))
      case Some(port) => Ok(Some((Strip(parts[0]), port)))
    else Ok(None)
  }

  /** One neighbour with the emptiness test done before the unpacking, so
      that an empty item (a trailing comma) is skipped. */
  function Neighbour(item: string): (r: Result<Option<(string, int)>>)
    ensures r == Ok(None) <==> |item| == 0
    ensures r.Err? <==> |item| > 0 && (Count(item, ':') != 1 || ParseInt(Split(item, ':')[1]).None?)
    ensures r.Err? ==> r.error.ValueError?
    ensures r.Ok? && r.value.Some? ==>
      r.value.value.0 == Strip(Split(item, ':')[0]) && ParseInt(Split(item, ':')[1]) == Some(r.value.value.1)
  {
    if |item| == 0 then Ok(None) else NeighbourAsWritten(item)
  }

  /** The list loop: apply `f` to every item from left to right, stop at
      the first exception and keep the non-skipped results in order. */
  function CollectAll(items: seq<string>, f: string -> Result<Option<(string, int)>>): Result<seq<(string, int)>>
  {
    if items == [] then Ok([])
    else
      match CollectAll(items[..|items| - 1], f)
      case Err(e) => Err(e)
      case Ok(prefix) =>
        match f(items[|items| - 1])
        case Err(e) => Err(e)
        case Ok(None) => Ok(prefix)
        case Ok(Some(a)) => Ok(prefix + [a])
  }

  /** `parse_addr_list` as written. */
  function AddrListAsWritten(s: string): (r: Result<seq<(string, int)>>)
    ensures |s| > 0 && "" in Split(s, ',') ==> r.Err?
  {
    if |s| == 0 then Ok([])
    else
      CollectEmptyRaises(Split(s, ','));
      CollectAll(Split(s, ','), NeighbourAsWritten)
  }

  /** As written, the loop raises once any item is empty. */
  lemma {:induction false} CollectEmptyRaises(items: seq<string>)
    ensures "" in items ==> CollectAll(items, NeighbourAsWritten).Err?
    decreases |items|
  {
    if items != [] && "" in items {
      var init := items[..|items| - 1];
      if items[|items| - 1] != "" {
        var i :| 0 <= i < |items| && items[i] == "";
        assert init[i] == "";
        CollectEmptyRaises(init);
      } else {
        assert Split("", ':') == [""];
      }
    }
  }

  /** `parse_addr_list` with empty items skipped. */
  function AddrList(s: string): Result<seq<(string, int)>>
  {
    if |s| == 0 then Ok([]) else CollectAll(Split(s, ','), Neighbour)
  }

  /** As written, the emptiness test is never false when it is reached:
      an item that unpacks into two pieces contains a ':'. */
  lemma EmptinessTestIsDead(item: string)
    ensures NeighbourAsWritten(item) != Ok(None)
  {
  }

  lemma {:induction false} SplitSnoc(s: string, sep: char)
    ensures Split(s + [sep], sep) == Split(s, sep) + [""]
    decreases |s|
  {
    if s == [] {
      assert [sep][1..] == [];
    } else {
      assert (s + [sep])[1..] == s[1..] + [sep];
      SplitSnoc(s[1..], sep);
    }
  }

  /** With a trailing comma the list as written raises, while skipping the
      empty item gives the list parsed without the comma. */
  lemma {:induction false} TrailingComma(s: string)
    ensures AddrListAsWritten(s + ",").Err?
    ensures AddrList(s + ",") == AddrList(s)
  {
    var items := Split(s, ',');
    SplitSnoc(s, ',');
    assert Split(s + ",", ',') == items + [""];
    assert (items + [""])[..|items|] == items;
    assert Split("", ':') == [""];
    if s == [] {
      assert items == [""] && items[..0] == [];
      assert CollectAll(items, Neighbour) == Ok([]);
    }
  }

  /** Where the program as written succeeds, skipping empty items changes
      nothing. */
  lemma {:induction false} CollectAgrees(items: seq<string>)
    requires CollectAll(items, NeighbourAsWritten).Ok?
    ensures CollectAll(items, Neighbour) == CollectAll(items, NeighbourAsWritten)
    decreases |items|
  {
    if items != [] {
      CollectAgrees(items[..|items| - 1]);
      EmptinessTestIsDead(items[|items| - 1]);
    }
  }

  /** On a list with no empty item the emptiness test makes no difference:
      the loop as written and the corrected loop give the same result. */
  lemma {:induction false} CollectAgreesNonEmpty(items: seq<string>)
    requires forall i :: 0 <= i < |items| ==> items[i] != ""
    ensures CollectAll(items, NeighbourAsWritten) == CollectAll(items, Neighbour)
    decreases |items|
  {
    if items != [] {
      var init := items[..|items| - 1];
      assert forall i :: 0 <= i < |init| ==> init[i] == items[i];
      CollectAgreesNonEmpty(init);
    }
  }

  lemma AddrListAgrees(s: string)
    requires AddrListAsWritten(s).Ok?
    ensures AddrList(s) == AddrListAsWritten(s)
  {
    if |s| > 0 {
      CollectAgrees(Split(s, ','));
    }
  }

  /** `host:port`, as a neighbour is written on the command line. */
  function FormatAddr(addr: (string, nat)): string
  {
    addr.0 + ":" + DecimalOf(addr.1)
  }

  /** A host that can be written in a neighbour list and read back. */
  predicate PlainHost(host: string)
  {
    ',' !in host && ':' !in host && (host != [] ==> !IsSpace(host[0]) && !IsSpace(host[|host| - 1]))
  }

  function FormatAll(addrs: seq<(string, nat)>): (items: seq<string>)
    ensures |items| == |addrs|
    ensures forall i :: 0 <= i < |addrs| ==> items[i] == FormatAddr(addrs[i])
  {
    if addrs == [] then [] else FormatAll(addrs[..|addrs| - 1]) + [FormatAddr(addrs[|addrs| - 1])]
  }

  lemma NoCommaInDigits(n: nat)
    ensures ',' !in DecimalOf(n) && ':' !in DecimalOf(n)
  {
    var d := DecimalOf(n);
    forall i | 0 <= i < |d| ensures d[i] != ',' && d[i] != ':' {
      assert IsDigit(d[i]);
    }
  }

  lemma NeighbourOfFormat(addr: (string, nat))
    requires PlainHost(addr.0)
    ensures Neighbour(FormatAddr(addr)) == Ok(Some((addr.0, addr.1 as int)))
  {
    var item := FormatAddr(addr);
    var parts := [addr.0, DecimalOf(addr.1)];
    assert Split(item, ':') == parts by {
      NoCommaInDigits(addr.1);
      assert parts[1..] == [DecimalOf(addr.1)];
      assert Join(parts, ':') == item;
      SplitJoin(parts, ':');
    }
    assert |item| > 0 by { assert item[|addr.0|] == ':'; }
    ParseIntDecimal(addr.1);
    StripUnpadded(addr.0, IsSpace);
    assert NeighbourAsWritten(item) == Ok(Some((Strip(parts[0]), addr.1 as int)));
  }

  /** The pairs as `parse_addr_list` returns them, port widened to `int`. */
  function Widened(addrs: seq<(string, nat)>): (r: seq<(string, int)>)
    ensures |r| == |addrs|
    ensures forall i :: 0 <= i < |addrs| ==> r[i] == (addrs[i].0, addrs[i].1 as int)
  {
    if addrs == [] then [] else Widened(addrs[..|addrs| - 1]) + [(addrs[|addrs| - 1].0, addrs[|addrs| - 1].1 as int)]
  }

  lemma {:induction false} CollectFormatted(addrs: seq<(string, nat)>)
    requires forall i :: 0 <= i < |addrs| ==> PlainHost(addrs[i].0)
    ensures CollectAll(FormatAll(addrs), Neighbour) == Ok(Widened(addrs))
    decreases |addrs|
  {
    if addrs != [] {
      var init := addrs[..|addrs| - 1];
      CollectFormatted(init);
      assert FormatAll(addrs)[..|addrs| - 1] == FormatAll(init);
      NeighbourOfFormat(addrs[|addrs| - 1]);
    }
  }

  /** Round trip: a neighbour list written as
      `host:port,host:port,...` parses back into the same pairs. */
  lemma {:induction false} AddrListOfFormatted(addrs: seq<(string, nat)>)
    requires forall i :: 0 <= i < |addrs| ==> PlainHost(addrs[i].0)
    ensures AddrList(Join(FormatAll(addrs), ',')) == Ok(Widened(addrs))
  {
    if addrs == [] {
      return;
    }
    var items := FormatAll(addrs);
    forall i | 0 <= i < |items| ensures ',' !in items[i] {
      NoCommaInDigits(addrs[i].1);
    }
    SplitJoin(items, ',');
    assert |Join(items, ',')| > 0 by {
      if |items| == 1 {
        assert ':' in items[0] by { assert items[0][|addrs[0].0|] == ':'; }
      } else {
        assert ',' in Join(items, ',') by { assert Join(items, ',')[|items[0]|] == ','; }
      }
    }
    CollectFormatted(addrs);
  }

  /** Round trip for the program as written: the list it is meant to read,
      `host:port,host:port,...` with no empty item, parses back into the
      same pairs. */
  lemma AddrListAsWrittenOfFormatted(addrs: seq<(string, nat)>)
    requires forall i :: 0 <= i < |addrs| ==> PlainHost(addrs[i].0)
    ensures AddrListAsWritten(Join(FormatAll(addrs), ',')) == Ok(Widened(addrs))
  {
    AddrListOfFormatted(addrs);
    var s := Join(FormatAll(addrs), ',');
    if |s| > 0 {
      var items := FormatAll(addrs);
      forall i | 0 <= i < |items| ensures ',' !in items[i] {
        NoCommaInDigits(addrs[i].1);
      }
      SplitJoin(items, ',');
      forall i | 0 <= i < |items| ensures items[i] != "" {
        assert items[i][|addrs[i].0|] == ':';
      }
      CollectAgreesNonEmpty(items);
    }
  }

  /** `parse_addr_list` (with empty items skipped): one `(host.strip(),
      int(port))` per comma-separated item. */
  method ParseAddrList(addrListStr: string) returns (r: Result<seq<(string, int)>>)
    ensures r == AddrList(addrListStr)
  {
    if |addrListStr| == 0 {
      return Ok([]);
    }
    var items := Split(addrListStr, ',');
    var addrList: seq<(string, int)> := [];
    for i := 0 to |items|
      invariant CollectAll(items[..i], Neighbour) == Ok(addrList)
    {
      CollectSnoc(items, i, Neighbour);
      var neighbour := Neighbour(items[i]);
      match neighbour {
        case Err(e) =>
          CollectErrStays(items, i + 1);
          return Err(e);
        case Ok(None) =>
        case Ok(Some(a)) =>
          addrList := addrList + [a];
      }
    }
    assert items[..|items|] == items;
    r := Ok(addrList);
  }

  /** The loop over one more item: the step `CollectAll` takes last. */
  lemma CollectSnoc(items: seq<string>, i: nat, f: string -> Result<Option<(string, int)>>)
    requires i < |items|
    ensures CollectAll(items[..i + 1], f) ==
      match CollectAll(items[..i], f)
      case Err(e) => Err(e)
      case Ok(prefix) =>
        match f(items[i])
        case Err(e) => Err(e)
        case Ok(None) => Ok(prefix)
        case Ok(Some(a)) => Ok(prefix + [a])
  {
    assert items[..i + 1][..i] == items[..i];
  }

  /** Once the loop has raised on a prefix, the whole list raises. */
  lemma {:induction false} CollectErrStays(items: seq<string>, n: nat)
    requires n <= |items|
    requires CollectAll(items[..n], Neighbour).Err?
    ensures CollectAll(items, Neighbour) == CollectAll(items[..n], Neighbour)
    decreases |items| - n
  {
    if n < |items| {
      assert items[..n + 1][..n] == items[..n];
      CollectErrStays(items, n + 1);
    } else {
      assert items[..n] == items;
    }
  }

  /** `parse_neighbours`: the parsed list with this node itself appended
      as the last neighbour. It uses the corrected list parse `AddrList`,
      which skips empty items where the program as written raises. */
  method ParseNeighbours(localPort: int, neighboursStr: string) returns (r: Result<seq<(string, int)>>)
    ensures r.Ok? <==> AddrList(neighboursStr).Ok?
    ensures r.Err? ==> r == AddrList(neighboursStr)
    ensures r.Ok? ==> |r.value| > 0 && r.value[|r.value| - 1] == ("127.0.0.1", localPort)
    ensures r.Ok? ==> r.value[..|r.value| - 1] == AddrList(neighboursStr).value
  {
    var neighbours := ParseAddrList(neighboursStr);
    if neighbours.Err? {
      return neighbours;
    }
    r := Ok(neighbours.value + [("127.0.0.1", localPort)]);
  }

  /** One item of `parse_services`: unpack on "/" (exactly three pieces),
      refuse a loopback address, then `generate_service_item`, which
      raises for an unknown service or backend. */
  function ServiceEntry(item: string): (r: Result<(string, string)>)
    ensures r.Err? ==> r.error.ValueError?
    ensures r.Ok? ==> r.value.1 == item
  {
    var parts := Split(item, '/');
    if |parts| != 3 then Err(ValueError("not exactly two '/' to unpack"))
    else if !ValidateServiceAddress(parts[2]) then Err(ValueError("Invalid service address: " + parts[2]))
    else
      JoinSplit(item, '/');
      JoinThree(parts, '/');
      match ServiceOf(parts[0])
      case Err(e) => Err(e)
      case Ok(service) =>
        match BackendOf(parts[1])
        case Err(e) => Err(e)
        case Ok(backend) => Ok(GenerateServiceItem(service, backend, parts[2]))
  }

  /** An item is accepted exactly when it has two "/", a non-loopback
      address and a known service and backend; its key is the item up to
      the second "/". */
  lemma ServiceEntryAccepts(item: string)
    ensures ServiceEntry(item).Ok? <==> (Count(item, '/') == 2 && ValidateServiceAddress(Split(item, '/')[2])
                                         && ServiceOf(Split(item, '/')[0]).Ok? && BackendOf(Split(item, '/')[1]).Ok?)
    ensures ServiceEntry(item).Ok? ==> ServiceEntry(item).value.0 == Split(item, '/')[0] + "/" + Split(item, '/')[1]
  {
  }

  /** What one item of a service list becomes: a dictionary entry, or an
      exception. */
  type EntryOf = string -> Result<(string, string)>

  /** The dictionary loop: entries left to right, a later entry for a key
      replacing an earlier one, stopping at the first exception, which is
      the exception of some item. */
  function ServicesFrom(items: seq<string>, entry: EntryOf): (r: Result<map<string, string>>)
    ensures r.Err? ==> exists i :: 0 <= i < |items| && entry(items[i]) == Err(r.error)
  {
    if items == [] then Ok(map[])
    else
      var init := items[..|items| - 1];
      assert forall i :: 0 <= i < |init| ==> init[i] == items[i];
      match ServicesFrom(init, entry)
      case Err(e) => Err(e)
      case Ok(m) =>
        match entry(items[|items| - 1])
        case Err(e) => Err(e)
        case Ok(kv) => Ok(m[kv.0 := kv.1])
  }

  /** Spec of `parse_services`: every exception it raises is a `ValueError`. */
  function Services(s: string): (r: Result<map<string, string>>)
    ensures r.Err? ==> r.error.ValueError?
  {
    if |s| == 0 then Ok(map[]) else ServicesFrom(Split(s, ','), ServiceEntry)
  }

  /** `parse_services`: the seed entries of this node, one per
      comma-separated `service/backend/address` item. */
  method ParseServices(serviceListStr: string) returns (r: Result<map<string, string>>)
    ensures r == Services(serviceListStr)
  {
    if |serviceListStr| == 0 {
      return Ok(map[]);
    }
    var items := Split(serviceListStr, ',');
    var storageItems: map<string, string> := map[];
    for i := 0 to |items|
      invariant ServicesFrom(items[..i], ServiceEntry) == Ok(storageItems)
    {
      assert items[..i + 1][..i] == items[..i];
      var entry := ServiceEntry(items[i]);
      if entry.Err? {
        ServicesErrStays(items, i + 1, ServiceEntry);
        return Err(entry.error);
      }
      var (key, value) := entry.value;
      storageItems := storageItems[key := value];
    }
    assert items[..|items|] == items;
    r := Ok(storageItems);
  }

  /** Once the loop has raised on a prefix, the whole list raises the same
      exception. */
  lemma {:induction false} ServicesErrStays(items: seq<string>, n: nat, entry: EntryOf)
    requires n <= |items|
    requires ServicesFrom(items[..n], entry).Err?
    ensures ServicesFrom(items, entry) == ServicesFrom(items[..n], entry)
    decreases |items| - n
  {
    if n < |items| {
      assert items[..n + 1][..n] == items[..n];
      ServicesErrStays(items, n + 1, entry);
    } else {
      assert items[..n] == items;
    }
  }

  /** A seed entry is the item generated for a known service and backend
      and a non-loopback address without "/"; its value is therefore
      accepted by the liveness round's decoding outside debug mode. */
  lemma ServiceEntryDecodes(item: string)
    requires ServiceEntry(item).Ok?
    ensures var (key, value) := ServiceEntry(item).value;
      && ParseStorageValue(value, false).Some?
      && value == key + "/" + ParseStorageValue(value, false).value.2
      && ValidateServiceAddress(ParseStorageValue(value, false).value.2)
  {
    var parts := Split(item, '/');
    ParseGeneratedItem(ServiceOf(parts[0]).value, BackendOf(parts[1]).value, parts[2], false);
  }

  /** Every item gives an entry. */
  predicate EntriesOk(items: seq<string>, entry: EntryOf)
  {
    forall i :: 0 <= i < |items| ==> entry(items[i]).Ok?
  }

  /** The loop gets through exactly when every item gives an entry. */
  lemma {:induction false} ServicesEntriesOk(items: seq<string>, entry: EntryOf)
    ensures ServicesFrom(items, entry).Ok? <==> EntriesOk(items, entry)
    decreases |items|
  {
    if items != [] {
      var init := items[..|items| - 1];
      ServicesEntriesOk(init, entry);
      assert forall i :: 0 <= i < |init| ==> init[i] == items[i];
    }
  }

  /** No item after the `i`-th names the same key. */
  predicate LastWithKey(items: seq<string>, i: nat, entry: EntryOf)
    requires i < |items| && EntriesOk(items, entry)
  {
    forall j :: i < j < |items| ==> entry(items[j]).value.0 != entry(items[i]).value.0
  }

  /** The keys the items name. */
  function EntryKeys(items: seq<string>, entry: EntryOf): set<string>
    requires EntriesOk(items, entry)
  {
    set i | 0 <= i < |items| :: entry(items[i]).value.0
  }

  /** The keys of the dictionary are exactly the keys the items name. */
  lemma {:induction false} ServicesKeys(items: seq<string>, entry: EntryOf)
    requires ServicesFrom(items, entry).Ok?
    ensures EntriesOk(items, entry)
    ensures ServicesFrom(items, entry).value.Keys == EntryKeys(items, entry)
    decreases |items|
  {
    ServicesEntriesOk(items, entry);
    if items != [] {
      var init := items[..|items| - 1];
      ServicesKeys(init, entry);
      EntryKeysSnoc(items, entry);
    }
  }

  /** The keys named by a list are those named by all but its last item,
      and the last item's key. */
  lemma EntryKeysSnoc(items: seq<string>, entry: EntryOf)
    requires items != [] && EntriesOk(items, entry)
    ensures EntriesOk(items[..|items| - 1], entry)
    ensures EntryKeys(items, entry) == EntryKeys(items[..|items| - 1], entry) + {entry(items[|items| - 1]).value.0}
  {
    var last := |items| - 1;
    var init := items[..last];
    assert forall i :: 0 <= i < last ==> init[i] == items[i];
    forall k | k in EntryKeys(items, entry) ensures k in EntryKeys(init, entry) + {entry(items[last]).value.0} {
      var i :| 0 <= i < |items| && entry(items[i]).value.0 == k;
      if i < last {
        assert entry(init[i]).value.0 == k;
      }
    }
    forall k | k in EntryKeys(init, entry) ensures k in EntryKeys(items, entry) {
      var i :| 0 <= i < |init| && entry(init[i]).value.0 == k;
      assert entry(items[i]).value.0 == k;
    }
    assert entry(items[last]).value.0 in EntryKeys(items, entry);
  }

  /** A key holds the value of the last item that names it. */
  lemma {:induction false} ServicesLastWins(items: seq<string>, i: nat, entry: EntryOf)
    requires ServicesFrom(items, entry).Ok?
    requires i < |items| && EntriesOk(items, entry) && LastWithKey(items, i, entry)
    ensures entry(items[i]).value.0 in ServicesFrom(items, entry).value
    ensures ServicesFrom(items, entry).value[entry(items[i]).value.0] == entry(items[i]).value.1
    decreases |items|
  {
    var last := |items| - 1;
    if i < last {
      var init := items[..last];
      assert items[i] == init[i];
      assert forall j :: 0 <= j < |init| ==> init[j] == items[j];
      ServicesLastWins(init, i, entry);
    }
  }

  /** Every entry of the dictionary is the entry of one of the items. */
  lemma {:induction false} ServicesFromItems(items: seq<string>, entry: EntryOf)
    requires ServicesFrom(items, entry).Ok?
    ensures EntriesOk(items, entry)
    ensures forall k :: k in ServicesFrom(items, entry).value ==>
      exists i :: 0 <= i < |items| && entry(items[i]).value == (k, ServicesFrom(items, entry).value[k])
    decreases |items|
  {
    ServicesEntriesOk(items, entry);
    if items != [] {
      var last := |items| - 1;
      var init := items[..last];
      ServicesFromItems(init, entry);
      var m := ServicesFrom(items, entry).value;
      var m0 := ServicesFrom(init, entry).value;
      var k1 := entry(items[last]).value.0;
      forall k | k in m ensures exists i :: 0 <= i < |items| && entry(items[i]).value == (k, m[k]) {
        if k == k1 {
          assert entry(items[last]).value == (k, m[k]);
        } else {
          var i :| 0 <= i < |init| && entry(init[i]).value == (k, m0[k]);
          assert items[i] == init[i];
        }
      }
    }
  }

  /** Every seed `parse_services` accepts decodes in the liveness round
      with its non-loopback address. */
  lemma {:induction false} ServicesDecode(s: string)
    requires Services(s).Ok?
    ensures forall k :: k in Services(s).value ==>
      ParseStorageValue(Services(s).value[k], false).Some? &&
      Services(s).value[k] == k + "/" + ParseStorageValue(Services(s).value[k], false).value.2
  {
    if |s| > 0 {
      var items := Split(s, ',');
      ServicesFromItems(items, ServiceEntry);
      forall k | k in Services(s).value
        ensures ParseStorageValue(Services(s).value[k], false).Some?
        ensures Services(s).value[k] == k + "/" + ParseStorageValue(Services(s).value[k], false).value.2
      {
        var i :| 0 <= i < |items| && ServiceEntry(items[i]).value == (k, Services(s).value[k]);
        ServiceEntryDecodes(items[i]);
      }
    }
  }
}
