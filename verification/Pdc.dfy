/**
 pdc.c: the list of modem configurations is complete once the list indication,
 one info reply per entry and the selected-config reply have all come in; a
 counter stands for "every entry has its description".
 */
module Pdc {
  import opened Bytes
  import opened Options

  const QMI_PROTOCOL_ERROR_NOT_PROVISIONED: Word := 16

  datatype ConfigInfo = ConfigInfo(
    id: seq<Byte>,
    configType: DWord,
    token: DWord,
    version: DWord,
    description: Option<string>,
    totalSize: DWord)

  datatype Element = Element(configType: DWord, id: seq<Byte>)

  /** An info reply; each detail is read by a getter that may find it missing. */
  datatype Info = Info(token: DWord, totalSize: Option<DWord>, version: Option<DWord>, description: Option<string>)

  datatype Context = Context(
    configList: Option<seq<ConfigInfo>>,
    configsLoaded: DWord,
    idsLoaded: bool,
    activeId: Option<seq<Byte>>,
    pendingId: Option<seq<Byte>>,
    token: DWord)

  /** A 32-bit increment. */
  function Next32(t: DWord): DWord {
    if t == 0xFFFF_FFFF then 0 else t + 1
  }

  /** The table preallocated for a list, with consecutive tokens from `t` on. */
  function Preallocated(es: seq<Element>, t: DWord): (cs: seq<ConfigInfo>)
    ensures |cs| == |es|
  {
    if es == [] then []
    else [ConfigInfo(es[0].id, es[0].configType, t, 0, None, 0)] + Preallocated(es[1..], Next32(t))
  }

  /** The `k`-th token issued from `t` on. */
  function TokenAt(t: DWord, k: nat): DWord {
    if k == 0 then t else Next32(TokenAt(t, k - 1))
  }

  lemma {:induction false} TokenAtIs(t: DWord, k: nat)
    requires k < 0x1_0000_0000
    ensures TokenAt(t, k) as int == if t as int + k < 0x1_0000_0000 then t + k else t + k - 0x1_0000_0000
  {
    if k > 0 { TokenAtIs(t, k - 1); }
  }

  /** Entry `k` gets the `k`-th token, across the 32-bit wrap. */
  lemma {:induction false} PreallocatedAt(es: seq<Element>, t: DWord, k: nat)
    requires k < |es|
    ensures Preallocated(es, t)[k] ==
            ConfigInfo(es[k].id, es[k].configType, TokenAt(t, k), 0, None, 0)
    decreases k
  {
    if k > 0 {
      PreallocatedAt(es[1..], Next32(t), k - 1);
      TokenAtSum(t, 1, k - 1);
    }
  }

  /** The info request for entry k names its element and carries the same token as the entry. */
  lemma {:induction false} InfoRequestAt(es: seq<Element>, t: DWord, k: nat)
    requires k < |es|
    ensures InfoRequests(es, t)[k] == Request(es[k].configType, es[k].id, Preallocated(es, t)[k].token)
    ensures Preallocated(es, t)[k].token == TokenAt(t, k)
    decreases k
  {
    PreallocatedAt(es, t, k);
    if k > 0 {
      InfoRequestAt(es[1..], Next32(t), k - 1);
      TokenAtSum(t, 1, k - 1);
    }
  }

  lemma {:induction false} TokenAtSum(t: DWord, m: nat, n: nat)
    ensures TokenAt(TokenAt(t, m), n) == TokenAt(t, m + n)
    decreases n
  {
    if n > 0 { TokenAtSum(t, m, n - 1); }
  }

  /** The entry a token belongs to; the last entry when there is none. */
  function IndexOf(cs: seq<ConfigInfo>, token: DWord): (k: nat)
    requires cs != []
    ensures k < |cs| && (cs[k].token == token || k == |cs| - 1)
    ensures forall i :: 0 <= i < k ==> cs[i].token != token
  {
    if cs[0].token == token || |cs| == 1 then 0 else 1 + IndexOf(cs[1..], token)
  }

  /** The details are stored one by one until one is missing. */
  function Filled(c: ConfigInfo, info: Info): ConfigInfo {
    match info.totalSize
    case None => c
    case Some(size) =>
      match info.version
      case None => c.(totalSize := size)
      case Some(version) =>
        match info.description
        case None => c.(totalSize := size, version := version)
        case Some(text) => c.(totalSize := size, version := version, description := Some(text))
  }

  /** What is stored: each detail if it and those read before it are there, and nothing else. */
  lemma {:induction false} DetailsStored(c: ConfigInfo, info: Info)
    ensures var d := Filled(c, info);
            d.id == c.id && d.configType == c.configType && d.token == c.token &&
            (d.totalSize == match info.totalSize case Some(v) => v case None => c.totalSize) &&
            (d.version == if info.totalSize.Some? && info.version.Some? then info.version.value else c.version) &&
            (d.description ==
               if info.totalSize.Some? && info.version.Some? && info.description.Some? then info.description
               else c.description)
  {
  }

  predicate Complete(info: Info) {
    info.totalSize.Some? && info.version.Some? && info.description.Some?
  }

  /** `check_list_config_completed`: the list gets printed. */
  predicate Completed(x: Context)
    requires x.configList.Some?
  {
    x.configsLoaded as int == |x.configList.value| && x.idsLoaded
  }

  function OnList(x: Context, es: seq<Element>): Context {
    x.(configList := Some(Preallocated(es, x.token)), token := TokenAt(x.token, |es|))
  }

  function OnInfo(x: Context, info: Info): Context
    requires x.configList.Some? && x.configList.value != []
  {
    var cs := x.configList.value;
    var k := IndexOf(cs, info.token);
    var y := x.(configList := Some(cs[k := Filled(cs[k], info)]));
    if Complete(info) then y.(configsLoaded := Next32(x.configsLoaded)) else y
  }

  function OnSelected(x: Context, active: Option<seq<Byte>>, pending: Option<seq<Byte>>): Context {
    x.(activeId := if active.Some? then active else x.activeId,
       pendingId := if pending.Some? then pending else x.pendingId,
       idsLoaded := true)
  }

  const ROW_COMMERCIAL := "ROW_Commercial"

  /** A request that names a configuration by type and id and carries a token. */
  datatype Request = Request(configType: DWord, id: seq<Byte>, token: DWord)

  /** The info requests a list is followed by. */
  function InfoRequests(es: seq<Element>, t: DWord): (rs: seq<Request>)
    ensures |rs| == |es|
  {
    if es == [] then []
    else [Request(es[0].configType, es[0].id, t)] + InfoRequests(es[1..], Next32(t))
  }

  /** The set-selected requests printing a table sends, with tokens from `t` on. */
  function SelectRequests(cs: seq<ConfigInfo>, t: DWord): seq<Request> {
    if cs == [] then []
    else
      var front, c := SelectRequests(cs[..|cs| - 1], t), cs[|cs| - 1];
      if c.description == Some(ROW_COMMERCIAL) then front + [Request(0x01, c.id, TokenAt(t, |front|))] else front
  }

  /** How many set-selected requests, hence tokens, printing a table costs. */
  function Selections(cs: seq<ConfigInfo>): nat {
    if cs == [] then 0
    else Selections(cs[..|cs| - 1]) + if cs[|cs| - 1].description == Some(ROW_COMMERCIAL) then 1 else 0
  }

  lemma {:induction false} SelectionsAre(cs: seq<ConfigInfo>, t: DWord)
    ensures |SelectRequests(cs, t)| == Selections(cs)
  {
    if cs != [] { SelectionsAre(cs[..|cs| - 1], t); }
  }

  /** A table entry that printing selects. */
  predicate Commercial(cs: seq<ConfigInfo>, k: nat) {
    k < |cs| && cs[k].description == Some("ROW_Commercial")
  }

  /** The requests `rs` are for the entries at `ks`, in that order, with consecutive tokens. */
  ghost predicate RequestsFor(rs: seq<Request>, cs: seq<ConfigInfo>, t: DWord, ks: seq<nat>) {
    && |rs| == |ks|
    && (forall j :: 0 <= j < |ks| ==> ks[j] < |cs| && rs[j] == Request(0x01, cs[ks[j]].id, TokenAt(t, j)))
    && (forall i, j :: 0 <= i < j < |ks| ==> ks[i] < ks[j])
  }

  lemma {:induction false} CommercialFront(cs: seq<ConfigInfo>, k: nat)
    requires cs != []
    ensures Commercial(cs, k) <==>
              Commercial(cs[..|cs| - 1], k) || (k == |cs| - 1 && cs[k].description == Some("ROW_Commercial"))
  {
  }

  lemma {:induction false} RequestsGrow(rs: seq<Request>, cs: seq<ConfigInfo>, t: DWord, ks: seq<nat>)
    requires cs != [] && RequestsFor(rs, cs[..|cs| - 1], t, ks)
    ensures RequestsFor(rs, cs, t, ks)
    ensures RequestsFor(rs + [Request(0x01, cs[|cs| - 1].id, TokenAt(t, |rs|))], cs, t, ks + [|cs| - 1])
  {
  }

  /**
   Printing sends one request for exactly the entries described as
   "ROW_Commercial", in table order, with their ids and consecutive tokens.
   */
  lemma {:induction false} SelectsCommercial(cs: seq<ConfigInfo>, t: DWord) returns (ks: seq<nat>)
    ensures RequestsFor(SelectRequests(cs, t), cs, t, ks)
    ensures forall k: nat :: k in ks <==> Commercial(cs, k)
  {
    if cs == [] {
      ks := [];
    } else {
      var n := |cs| - 1;
      var before := SelectsCommercial(cs[..n], t);
      RequestsGrow(SelectRequests(cs[..n], t), cs, t, before);
      ks := if cs[n].description == Some("ROW_Commercial") then before + [n] else before;
      forall k: nat ensures k in ks <==> Commercial(cs, k) {
        CommercialFront(cs, k);
        assert k in before <==> Commercial(cs[..n], k);
      }
    }
  }

  /** Their number is that of the entries so described. */
  lemma {:induction false} SelectionsCount(cs: seq<ConfigInfo>)
    ensures Selections(cs) == |set k: nat | k < |cs| && cs[k].description == Some("ROW_Commercial")|
  {
    if cs != [] {
      var n := |cs| - 1;
      SelectionsCount(cs[..n]);
      var all := set k: nat | k < |cs| && cs[k].description == Some("ROW_Commercial");
      var front := set k: nat | k < |cs[..n]| && cs[..n][k].description == Some("ROW_Commercial");
      assert all == if cs[n].description == Some("ROW_Commercial") then front + {n} else front;
    }
  }

  /** What a table found complete sends. */
  function Sends(x: Context): seq<Request>
    requires x.configList.Some?
  {
    if Completed(x) then SelectRequests(x.configList.value, x.token) else []
  }

  function Printed(x: Context): Context
    requires x.configList.Some?
  {
    x.(token := TokenAt(x.token, Selections(x.configList.value)))
  }

  /** What every indication ends with. */
  function Checked(x: Context): Context
    requires x.configList.Some?
  {
    if Completed(x) then Printed(x) else x
  }

  class PdcContext {
    var configList: Option<array<ConfigInfo>>
    var configsLoaded: DWord
    var idsLoaded: bool
    var activeConfigId: Option<seq<Byte>>
    var pendingConfigId: Option<seq<Byte>>
    var token: DWord

    ghost function Value(): Context
      reads this, if configList.Some? then {configList.value} else {}
    {
      Context(if configList.Some? then Some(configList.value[..]) else None, configsLoaded, idsLoaded,
              activeConfigId, pendingConfigId, token)
    }

    constructor ()
      ensures Value() == Context(None, 0, false, None, None, 0)
    {
      configList, configsLoaded, idsLoaded := None, 0, false;
      activeConfigId, pendingConfigId, token := None, None, 0;
    }

    /** Prints the table; every description met must be there, and "ROW_Commercial" entries get selected. */
    method PrintConfigs() returns (sent: seq<Request>)
      requires configList.Some?
      requires forall c :: c in configList.value[..] ==> c.description.Some?
      modifies this`token
      ensures Value() == Printed(old(Value()))
      ensures sent == SelectRequests(configList.value[..], old(token))
    {
      var list := configList.value;
      ghost var cs, t := list[..], token;
      sent := [];
      for i := 0 to list.Length
        invariant list[..] == cs
        invariant sent == SelectRequests(cs[..i], t)
        invariant token == TokenAt(t, |sent|)
      {
        assert cs[..i + 1][..i] == cs[..i] && cs[..i + 1][i] == cs[i];
        assert list[i] in list[..];
        if list[i].description.value == ROW_COMMERCIAL {
          sent := sent + [Request(0x01, list[i].id, token)];
          token := Next32(token);
        }
      }
      assert cs[..list.Length] == cs;
      SelectionsAre(cs, t);
    }

    method CheckListConfigCompleted() returns (printed: bool, sent: seq<Request>)
      requires configList.Some?
      requires Completed(Value()) ==> forall c :: c in configList.value[..] ==> c.description.Some?
      modifies this`token
      ensures printed == Completed(old(Value())) && sent == Sends(old(Value()))
      ensures Value() == Checked(old(Value()))
    {
      printed, sent := configsLoaded as int == configList.value.Length && idsLoaded, [];
      if printed {
        sent := PrintConfigs();
      }
    }

    /** One entry, one token and one info request per element. */
    method Preallocate(es: seq<Element>) returns (list: array<ConfigInfo>, asked: seq<Request>)
      modifies this`token
      ensures fresh(list) && list[..] == Preallocated(es, old(token))
      ensures token == TokenAt(old(token), |es|) && asked == InfoRequests(es, old(token))
    {
      ghost var cs, t := Preallocated(es, token), token;
      asked := [];
      list := new ConfigInfo[|es|](_ => ConfigInfo([], 0, 0, 0, None, 0));
      for i := 0 to |es|
        invariant forall j :: 0 <= j < i ==> list[j] == cs[j]
        invariant token == TokenAt(t, i) && asked == InfoRequests(es, t)[..i]
      {
        PreallocatedAt(es, t, i);
        InfoRequestAt(es, t, i);
        asked := asked + [Request(es[i].configType, es[i].id, token)];
        list[i] := ConfigInfo(es[i].id, es[i].configType, token, 0, None, 0);
        token := Next32(token);
      }
    }

    /** `None` stands for an indication that reports an error. */
    method ListConfigsReadyIndication(configs: Option<seq<Element>>) 
      returns (printed: bool, asked: seq<Request>, sent: seq<Request>)
      requires configs.Some? && Completed(OnList(Value(), configs.value)) ==>
        forall c :: c in Preallocated(configs.value, token) ==> c.description.Some?
      modifies this
      ensures configs.None? ==> Value() == old(Value()) && !printed && asked == sent == []
      ensures configs.Some? ==>
        var x := OnList(old(Value()), configs.value);
        Value() == Checked(x) && printed == Completed(x) &&
        asked == InfoRequests(configs.value, old(token)) && sent == Sends(x)
    {
      if configs.None? {
        return false, [], [];
      }
      var list;
      list, asked := Preallocate(configs.value);
      configList := Some(list);
      printed, sent := CheckListConfigCompleted();
    }

    /** `None` stands for an indication that reports an error or carries no token. */
    method GetConfigInfoReadyIndication(output: Option<Info>) returns (printed: bool, sent: seq<Request>)
      requires output.Some? ==> configList.Some? && configList.value.Length > 0
      requires output.Some? && Complete(output.value) && Completed(OnInfo(Value(), output.value)) ==>
        forall c :: c in OnInfo(Value(), output.value).configList.value ==> c.description.Some?
      modifies this, if configList.Some? then {configList.value} else {}
      ensures output.None? ==> Value() == old(Value()) && !printed && sent == []
      ensures output.Some? ==>
        var x := OnInfo(old(Value()), output.value);
        Value() == (if Complete(output.value) then Checked(x) else x) &&
        printed == (Complete(output.value) && Completed(x)) &&
        sent == if Complete(output.value) then Sends(x) else []
    {
      if output.None? {
        return false, [];
      }
      var info, list := output.value, configList.value;
      ghost var cs := list[..];
      var k := 0;
      while k < list.Length - 1 && list[k].token != info.token
        invariant k < list.Length
        invariant forall i :: 0 <= i < k ==> list[i].token != info.token
      {
        k := k + 1;
      }
      assert k == IndexOf(cs, info.token);
      list[k] := Filled(list[k], info);
      assert list[..] == cs[k := Filled(cs[k], info)];
      if !Complete(info) {
        return false, [];
      }
      configsLoaded := Next32(configsLoaded);
      printed, sent := CheckListConfigCompleted();
    }

    /** A protocol error other than NOT_PROVISIONED leaves everything as it was. */
    method GetSelectedConfigReadyIndication(error: Word, active: Option<seq<Byte>>, pending: Option<seq<Byte>>)
      returns (printed: bool, sent: seq<Request>)
      requires error == 0 || error == QMI_PROTOCOL_ERROR_NOT_PROVISIONED ==>
        configList.Some? &&
        (Completed(OnSelected(Value(), active, pending)) ==>
           forall c :: c in configList.value[..] ==> c.description.Some?)
      modifies this
      ensures error != 0 && error != QMI_PROTOCOL_ERROR_NOT_PROVISIONED ==>
        Value() == old(Value()) && !printed && sent == []
      ensures error == 0 || error == QMI_PROTOCOL_ERROR_NOT_PROVISIONED ==>
        var x := OnSelected(old(Value()), active, pending);
        Value() == Checked(x) && printed == Completed(x) && sent == Sends(x)
    {
      if error != 0 && error != QMI_PROTOCOL_ERROR_NOT_PROVISIONED {
        return false, [];
      }
      if active.Some? { activeConfigId := active; }
      if pending.Some? { pendingConfigId := pending; }
      idsLoaded := true;
      printed, sent := CheckListConfigCompleted();
    }
  }
}
