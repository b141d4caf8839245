/**
 wds.c: the bring-up of one IMS data session. Timer ticks and modem replies
 move `connection_readiness_step`; requests to the modem are outputs.
 */
module Wds {
  import opened Bytes
  import opened Options
  import opened Inet

  const GET_PROFILES: Byte := 0
  const ADD_MODIFY_PROFILE: Byte := 1
  const PROFILE_READY: Byte := 2
  const SETUP_DATA_FORMAT: Byte := 3
  const SETUP_LINK: Byte := 4
  const LINK_BRINGUP: Byte := 5
  const SET_IP_BEARER: Byte := 6
  const BIND_DATA_PORT: Byte := 7
  const SELECT_IP_FAMILY: Byte := 8
  const DO_START_NETWORK: Byte := 9
  const WAIT_NET_START: Byte := 10
  const REGISTER_INDICATIONS: Byte := 11
  const GET_SETTINGS: Byte := 12
  const BIND_DATA_PORT_IPV6: Byte := 13
  const GET_SETTINGS_IPV6: Byte := 17
  const FINISHED: Byte := 99

  const APN_TYPE_MASK_IMS := 0x02
  const NO_HANDLE: DWord := 0xFFFF_FFFF

  /** A profile list under scan, by profile index, and the position reached. */
  datatype Scan = Scan(profiles: seq<Byte>, i: nat)

  datatype Session = Session(
    step: Byte,
    profileId: Byte,
    muxId: DWord,
    handle: DWord,
    setupLinkDone: bool,
    slotId: DWord,
    scan: Option<Scan>,
    ip: seq<Byte>)

  /** The zero-initialised client. */
  const FRESH := Session(0, 0, 0, 0, false, 0, None, Zeros(IP_BUFFER_SIZE))

  datatype Request =
    | GetProfileList
    | GetProfileSettings(profile: Byte)
    | CreateProfile
    | ModifyProfile
    | AddLink
    | BindPort(muxId: DWord)
    | StartNetwork(profile: Byte)
    | GetCurrentSettings

  datatype StartResult = NoOutput | CallFailed | OtherError | Started(handle: Option<DWord>)

  /** What the modem answers; `None` and `false` are the error paths. */
  datatype Reply =
    | ProfileList(profiles: Option<seq<Byte>>)
    | ProfileSettings(apnTypeMask: Option<nat>)
    | ProfileCreated(profile: Option<Byte>)
    | ProfileModified
    | LinkAdded(muxId: Option<DWord>)
    | Bound(ok: bool)
    | NetworkStarted(result: StartResult)
    | CurrentSettings(netmask: Option<DWord>, address: Option<DWord>)

  /** What a tick does besides moving the step; the timer is kept on the first two only. */
  datatype TickAction = Wait | Send(request: Request) | NotifyDcm | GiveUp

  function Inc(step: Byte): Byte { (step as int + 1) % 0x100 }
  function Dec(step: Byte): Byte { (step as int + 255) % 0x100 }

  function Initiate(s: Session, slot: DWord): Session {
    s.(muxId := 0, step := 0, profileId := 0, setupLinkDone := false, handle := NO_HANDLE, slotId := slot)
  }

  function Tick(s: Session): (Session, TickAction) {
    if s.step == GET_PROFILES then
      (s, Send(GetProfileList))
    else if s.step == ADD_MODIFY_PROFILE then
      if s.profileId == 0 then (s, Send(CreateProfile))
      else (s.(step := PROFILE_READY), Send(ModifyProfile))
    else if s.step == PROFILE_READY then
      (s.(step := SETUP_DATA_FORMAT), Wait)
    else if s.step == SETUP_LINK then
      if s.setupLinkDone then (s, Wait) else (s.(setupLinkDone := true), Send(AddLink))
    else if s.step == BIND_DATA_PORT then
      (s, Send(BindPort(s.muxId)))
    else if s.step == DO_START_NETWORK then
      (s.(step := WAIT_NET_START), Send(StartNetwork(s.profileId)))
    else if s.step == WAIT_NET_START then
      (s, Wait)
    else if s.step == GET_SETTINGS then
      (s, Send(GetCurrentSettings))
    else if s.step == BIND_DATA_PORT_IPV6 then
      (s.(step := FINISHED), Wait)
    else if s.step <= REGISTER_INDICATIONS then
      (s.(step := Inc(s.step)), Wait)
    else if s.step <= GET_SETTINGS_IPV6 then
      (s, Wait)
    else if s.step == FINISHED then
      (s, NotifyDcm)
    else
      (s, GiveUp)
  }

  /** `wds_get_next_profile_settings`: ask for the next profile, or close the scan. */
  function NextProfile(s: Session): (Session, Option<Request>)
    requires s.scan.Some?
  {
    var Scan(ps, i) := s.scan.value;
    if i < |ps| then (s, Some(GetProfileSettings(ps[i])))
    else (s.(scan := None, step := if s.profileId == 0 then ADD_MODIFY_PROFILE else s.step), None)
  }

  /** `memcpy` of the text without its terminator over what the buffer held. */
  function StoreAddress(ip: seq<Byte>, address: DWord): (r: seq<Byte>)
    requires |ip| == IP_BUFFER_SIZE
    ensures |r| == IP_BUFFER_SIZE
  {
    Overlay(ip, 0, QmiInet4Ntop(address))
  }

  /** A profile-settings reply needs a scan in progress with the profile it was asked for. */
  predicate Expected(s: Session, r: Reply) {
    && |s.ip| == IP_BUFFER_SIZE
    && (r.ProfileSettings? ==> s.scan.Some? && s.scan.value.i < |s.scan.value.profiles|)
  }

  function OnReply(s: Session, r: Reply): (Session, Option<Request>)
    requires Expected(s, r)
  {
    match r
    case ProfileList(None) => (s, None)
    case ProfileList(Some(ps)) =>
      if ps == [] then (s.(step := ADD_MODIFY_PROFILE), None)
      else NextProfile(s.(scan := Some(Scan(ps, 0))))
    case ProfileSettings(mask) =>
      var Scan(ps, i) := s.scan.value;
      var found := if mask == Some(APN_TYPE_MASK_IMS) then s.(profileId := ps[i], step := PROFILE_READY) else s;
      NextProfile(found.(scan := Some(Scan(ps, i + 1))))
    case ProfileCreated(Some(p)) => (s.(profileId := p, step := PROFILE_READY), None)
    case ProfileCreated(None) => (s, None)
    case ProfileModified => (s, None)
    case LinkAdded(Some(mux)) => (s.(muxId := mux, step := Inc(s.step)), None)
    case LinkAdded(None) => (s, None)
    case Bound(ok) => (if ok then s.(step := Inc(s.step)) else s, None)
    case NetworkStarted(NoOutput) => (s.(step := Dec(s.step)), None)
    case NetworkStarted(CallFailed) => (s.(step := SET_IP_BEARER), None)
    case NetworkStarted(OtherError) => (s.(step := Inc(s.step)), None)
    case NetworkStarted(Started(h)) =>
      (s.(step := Inc(s.step), handle := match h { case Some(v) => v case None => s.handle }), None)
    case CurrentSettings(Some(_), Some(a)) => (s.(ip := StoreAddress(s.ip, a), step := Inc(s.step)), None)
    case CurrentSettings(_, _) => (s, None)
  }

  // ---- the client object ------------------------------------------------------------------

  class WdsClient {
    var connectionReadinessStep: Byte
    var profileId: Byte
    var muxId: DWord
    var packetDataHandle: DWord
    var setupLinkDone: bool
    var slotId: DWord
    var profileList: Option<Scan>
    const ipAddress: array<Byte>

    ghost predicate Valid()
      reads this
    {
      ipAddress.Length == IP_BUFFER_SIZE
    }

    ghost function Value(): Session
      reads this, ipAddress
    {
      Session(connectionReadinessStep, profileId, muxId, packetDataHandle, setupLinkDone, slotId, profileList,
              ipAddress[..])
    }

    constructor ()
      ensures Valid() && fresh(ipAddress)
      ensures Value() == FRESH
    {
      connectionReadinessStep, profileId, muxId, packetDataHandle := 0, 0, 0, 0;
      setupLinkDone, slotId, profileList := false, 0, None;
      ipAddress := new Byte[IP_BUFFER_SIZE](_ => 0);
    }

    method InitiateWdsSession(simSlot: DWord)
      requires Valid()
      modifies this
      ensures Valid() && Value() == Initiate(old(Value()), simSlot)
    {
      muxId := 0;
      connectionReadinessStep := 0;
      profileId := 0;
      setupLinkDone := false;
      packetDataHandle := NO_HANDLE;
      slotId := simSlot;
    }

    method SetupLink() returns (action: TickAction)
      requires Valid() && connectionReadinessStep == SETUP_LINK
      modifies this
      ensures Valid() && (Value(), action) == Tick(old(Value()))
    {
      if !setupLinkDone {
        setupLinkDone := true;
        return Send(AddLink);
      }
      return Wait;
    }

    method FindProfileAddModify() returns (action: TickAction)
      requires Valid() && connectionReadinessStep == ADD_MODIFY_PROFILE
      modifies this
      ensures Valid() && (Value(), action) == Tick(old(Value()))
    {
      if profileId == 0 {
        return Send(CreateProfile);
      }
      connectionReadinessStep := PROFILE_READY;
      return Send(ModifyProfile);
    }

    method GetWdsReadyToConnect() returns (action: TickAction)
      requires Valid()
      modifies this
      ensures Valid() && (Value(), action) == Tick(old(Value()))
    {
      action := Wait;
      match connectionReadinessStep {
        case 0 => action := Send(GetProfileList);
        case 1 => action := FindProfileAddModify();
        case 2 => connectionReadinessStep := SETUP_DATA_FORMAT;
        case 4 => action := SetupLink();
        case 3 | 5 | 6 | 8 | 11 => connectionReadinessStep := Inc(connectionReadinessStep);
        case 7 => action := Send(BindPort(muxId));
        case 9 =>
          connectionReadinessStep := WAIT_NET_START;
          action := Send(StartNetwork(profileId));
        case 10 =>
        case 12 => action := Send(GetCurrentSettings);
        case 13 => connectionReadinessStep := FINISHED;
        case 14 | 15 | 16 | 17 =>
        case 99 => action := NotifyDcm;
        case _ => action := GiveUp;
      }
    }

    method GetNextProfileSettings() returns (request: Option<Request>)
      requires Valid() && profileList.Some?
      modifies this
      ensures Valid() && (Value(), request) == NextProfile(old(Value()))
    {
      var Scan(ps, i) := profileList.value;
      if i >= |ps| {
        if profileId == 0 {
          connectionReadinessStep := ADD_MODIFY_PROFILE;
        }
        profileList := None;
        return None;
      }
      return Some(GetProfileSettings(ps[i]));
    }

    method ProfileListReady(profiles: Option<seq<Byte>>) returns (request: Option<Request>)
      requires Valid()
      modifies this
      ensures Valid() && (Value(), request) == OnReply(old(Value()), ProfileList(profiles))
    {
      if profiles.None? {
        return None;
      }
      if profiles.value == [] {
        connectionReadinessStep := ADD_MODIFY_PROFILE;
        return None;
      }
      profileList := Some(Scan(profiles.value, 0));
      request := GetNextProfileSettings();
    }

    method ProfileSettingsReady(apnTypeMask: Option<nat>) returns (request: Option<Request>)
      requires Valid() && profileList.Some? && profileList.value.i < |profileList.value.profiles|
      modifies this
      ensures Valid() && (Value(), request) == OnReply(old(Value()), ProfileSettings(apnTypeMask))
    {
      var Scan(ps, i) := profileList.value;
      if apnTypeMask.Some? && apnTypeMask.value == APN_TYPE_MASK_IMS {
        profileId := ps[i];
        connectionReadinessStep := PROFILE_READY;
      }
      profileList := Some(Scan(ps, i + 1));
      request := GetNextProfileSettings();
    }

    method AddNewProfileReady(profile: Option<Byte>)
      requires Valid()
      modifies this
      ensures Valid() && (Value(), None) == OnReply(old(Value()), ProfileCreated(profile))
    {
      if profile.Some? {
        profileId := profile.value;
        connectionReadinessStep := PROFILE_READY;
      }
    }

    method SetupLinkReady(mux: Option<DWord>)
      requires Valid()
      modifies this
      ensures Valid() && (Value(), None) == OnReply(old(Value()), LinkAdded(mux))
    {
      if mux.Some? {
        muxId := mux.value;
        connectionReadinessStep := Inc(connectionReadinessStep);
      }
    }

    method BindMuxDataPortReady(ok: bool)
      requires Valid()
      modifies this
      ensures Valid() && (Value(), None) == OnReply(old(Value()), Bound(ok))
    {
      if !ok {
        return;
      }
      connectionReadinessStep := Inc(connectionReadinessStep);
    }

    method StartNetworkReady(result: StartResult)
      requires Valid()
      modifies this
      ensures Valid() && (Value(), None) == OnReply(old(Value()), NetworkStarted(result))
    {
      if result.NoOutput? {
        connectionReadinessStep := Dec(connectionReadinessStep);
        return;
      }
      if !result.Started? {
        if result.CallFailed? {
          connectionReadinessStep := 5;
        }
        connectionReadinessStep := Inc(connectionReadinessStep);
        return;
      }
      if result.handle.Some? {
        packetDataHandle := result.handle.value;
      }
      connectionReadinessStep := Inc(connectionReadinessStep);
    }

    /** Also reports the prefix length, which is computed before the address is looked at. */
    method GetCurrentSettingsReady(netmask: Option<DWord>, address: Option<DWord>) returns (prefix: nat)
      requires Valid()
      modifies this, ipAddress
      ensures Valid() && (Value(), None) == OnReply(old(Value()), CurrentSettings(netmask, address))
      ensures prefix == match netmask { case Some(m) => PopCount(m) case None => 0 }
    {
      if netmask.None? {
        return 0;
      }
      MaskCountSurvives(netmask.value);
      prefix := MmNetmaskToCidr(QmiInet4Ntop(netmask.value));
      if address.None? {
        return;
      }
      Put(ipAddress, 0, QmiInet4Ntop(address.value));
      connectionReadinessStep := Inc(connectionReadinessStep);
    }
  }

  // ---- profile scan -----------------------------------------------------------------------

  /** The replies of a whole scan, taken one after the other. */
  function ScanAll(s: Session, masks: seq<Option<nat>>): Session
    requires |s.ip| == IP_BUFFER_SIZE
    requires masks != [] ==> s.scan.Some? && s.scan.value.i + |masks| == |s.scan.value.profiles|
    decreases |masks|
  {
    if masks == [] then s
    else ScanAll(OnReply(s, ProfileSettings(masks[0])).0, masks[1..])
  }

  /** `p` is what the last reply with exactly the IMS mask names, 0 when there is none. */
  ghost predicate LastIms(profiles: seq<Byte>, masks: seq<Option<nat>>, p: Byte)
    requires |profiles| == |masks|
  {
    || (p == 0 && forall k :: 0 <= k < |masks| ==> masks[k] != Some(APN_TYPE_MASK_IMS))
    || (exists k :: 0 <= k < |masks| && profiles[k] == p && LastImsAt(masks, k))
  }

  predicate LastImsAt(masks: seq<Option<nat>>, k: nat)
    requires k < |masks|
  {
    masks[k] == Some(APN_TYPE_MASK_IMS) && forall j :: k < j < |masks| ==> masks[j] != Some(APN_TYPE_MASK_IMS)
  }

  /** The scan from position `i` on, given that `p` is right for the part already scanned. */
  lemma {:induction false} ScanFrom(s: Session, profiles: seq<Byte>, masks: seq<Option<nat>>, i: nat)
    requires |s.ip| == IP_BUFFER_SIZE && i < |profiles| == |masks|
    requires s.scan == Some(Scan(profiles, i))
    requires LastIms(profiles[..i], masks[..i], s.profileId)
    requires s.profileId != 0 ==> s.step == PROFILE_READY
    ensures var r := ScanAll(s, masks[i..]);
            LastIms(profiles, masks, r.profileId) && r.scan == None &&
            r.step == if r.profileId == 0 then ADD_MODIFY_PROFILE else PROFILE_READY
    decreases |profiles| - i
  {
    var next := OnReply(s, ProfileSettings(masks[i])).0;
    assert masks[i..][1..] == masks[i + 1..];
    LastImsGrows(profiles, masks, i, s.profileId);
    if i + 1 < |profiles| {
      ScanFrom(next, profiles, masks, i + 1);
    } else {
      assert profiles[..i + 1] == profiles && masks[..i + 1] == masks;
    }
  }

  lemma {:induction false} LastImsGrows(profiles: seq<Byte>, masks: seq<Option<nat>>, i: nat, p: Byte)
    requires i < |profiles| == |masks|
    requires LastIms(profiles[..i], masks[..i], p)
    ensures LastIms(profiles[..i + 1], masks[..i + 1],
                    if masks[i] == Some(APN_TYPE_MASK_IMS) then profiles[i] else p)
  {
    var ps, ms := profiles[..i], masks[..i];
    var ps', ms' := profiles[..i + 1], masks[..i + 1];
    assert forall k :: 0 <= k < i ==> ms'[k] == ms[k] && ps'[k] == ps[k];
    assert ms'[i] == masks[i] && ps'[i] == profiles[i];
    if masks[i] == Some(APN_TYPE_MASK_IMS) {
      assert LastImsAt(ms', i);
    } else if k :| 0 <= k < i && ps[k] == p && LastImsAt(ms, k) {
      assert ps'[k] == p && LastImsAt(ms', k);
    }
  }

  /**
   A full scan with no tick in between picks the last profile whose reply
   carried exactly the IMS mask; index 0 counts as none.
   */
  lemma {:induction false} ScanPicksLast(s: Session, profiles: seq<Byte>, masks: seq<Option<nat>>)
    requires |s.ip| == IP_BUFFER_SIZE && s.profileId == 0
    requires profiles != [] && |profiles| == |masks|
    ensures var r := ScanAll(OnReply(s, ProfileList(Some(profiles))).0, masks);
            LastIms(profiles, masks, r.profileId) && r.scan == None &&
            r.step == if r.profileId == 0 then ADD_MODIFY_PROFILE else PROFILE_READY
  {
    var s1 := OnReply(s, ProfileList(Some(profiles))).0;
    assert masks[0..] == masks;
    ScanFrom(s1, profiles, masks, 0);
  }
}
