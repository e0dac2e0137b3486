/** The decision logic of the enclosure service: which chassis a model
    string stands for, the defaults of an `EnclosureCreate` request, and the
    `ChangeDriveTrayColor` events (and tray `enabled` flags) with which the
    service colours the drive trays of a chassis view by pool or by disk
    health.

    The pixi.js scene graph is not modelled: a chassis view is its drive
    trays, its slot range and the log of colour events sent to it. Theme
    colours are named rather than given as values. */
module Enclosure {
  import opened Optional
  import opened JsText
  import opened Sequences

  /** The view shown when a request names none. */
  const DefaultView := "front"

  // ---------------------------------------------------------------------
  // Chassis dispatch
  // ---------------------------------------------------------------------

  /** The chassis classes; `rear` is the constructor's rear-bays flag. */
  datatype Chassis =
    | R10 | R20(rear: bool) | R40 | R50(rear: bool) | M50(rear: bool)
    | ES12 | E16 | ES24 | ES24F | E24 | ES60 | E60 | ES102

  /** Every model string `createChassis` recognises. */
  const ChassisModels: set<string> :=
    {"R10", "R20", "R40", "R50", "M Series", "X Series", "ES12", "Z Series",
     "TRUENAS-Z20-HA-D", "E16", "ES24", "ES24F", "E24", "ES60", "E60", "ES102"}

  /** `!!system.rearIndex`: a rear enclosure index that is present and not 0. */
  predicate HasRear(rearIndex: Option<int>) {
    rearIndex.Some? && rearIndex.value != 0
  }

  /** `createChassis`: the chassis for an enclosure's model string, or
      `None` (undefined) for a model it does not know. */
  function CreateChassis(model: string, rearIndex: Option<int>): (c: Option<Chassis>)
    ensures c.Some? <==> model in ChassisModels
    ensures c == Some(ES12) <==> model == "X Series" || model == "ES12"
    ensures c == Some(E16) <==> model == "Z Series" || model == "TRUENAS-Z20-HA-D" || model == "E16"
    ensures c.Some? && (c.value.R20? || c.value.R50?) ==> c.value.rear
    ensures c.Some? && c.value.M50? ==> (c.value.rear <==> HasRear(rearIndex))
  {
    if model == "R10" then Some(R10)
    else if model == "R20" then Some(R20(true))
    else if model == "R40" then Some(R40)
    else if model == "R50" then Some(R50(true))
    else if model == "M Series" then Some(M50(HasRear(rearIndex)))
    else if model == "X Series" || model == "ES12" then Some(ES12)
    else if model == "Z Series" || model == "TRUENAS-Z20-HA-D" || model == "E16" then Some(E16)
    else if model == "ES24" then Some(ES24)
    else if model == "ES24F" then Some(ES24F)
    else if model == "E24" then Some(E24)
    else if model == "ES60" then Some(ES60)
    else if model == "E60" then Some(E60)
    else if model == "ES102" then Some(ES102)
    else None
  }

  /** The model string of a chassis, under its own name ("M Series" for the
      M50). */
  function ModelName(c: Chassis): string {
    match c
    case R10 => "R10"
    case R20(_) => "R20"
    case R40 => "R40"
    case R50(_) => "R50"
    case M50(_) => "M Series"
    case ES12 => "ES12"
    case E16 => "E16"
    case ES24 => "ES24"
    case ES24F => "ES24F"
    case E24 => "E24"
    case ES60 => "ES60"
    case E60 => "E60"
    case ES102 => "ES102"
  }

  /** Every chassis `createChassis` can build is built from its own model
      name: the dispatch reaches every class, and two different classes
      never share a model name. */
  lemma CreateChassisOfModelName(c: Chassis, rearIndex: Option<int>)
    requires (c.R20? || c.R50?) ==> c.rear
    requires c.M50? ==> (c.rear <==> HasRear(rearIndex))
    ensures CreateChassis(ModelName(c), rearIndex) == Some(c)
  {
  }

  // ---------------------------------------------------------------------
  // EnclosureCreate defaults
  // ---------------------------------------------------------------------

  /** The fields of an `EnclosureCreate` request this model reads; a
      missing optional property is `None`. */
  datatype EnclosureAppConfig = EnclosureAppConfig(
    enclosureIndex: int, show: string, view: Option<string>,
    interactive: Option<bool>, background: Option<bool>)

  /** The request after the handler filled in its defaults: `background` is
      set to true whenever it is falsy, so it is true afterwards whatever it
      was; a missing or empty view becomes the front view; a falsy
      `interactive` becomes false. Nothing else changes. */
  function WithCreateDefaults(config: EnclosureAppConfig): (d: EnclosureAppConfig)
    ensures d.background == Some(true)
    ensures d.view.Some? && d.view.value != ""
    ensures config.view.Some? && config.view.value != "" ==> d.view == config.view
    ensures config.view.None? || config.view.value == "" ==> d.view == Some(DefaultView)
    ensures d.interactive.Some? && (d.interactive.value <==> config.interactive == Some(true))
    ensures d.enclosureIndex == config.enclosureIndex && d.show == config.show
  {
    var c1 := if config.background != Some(true) then config.(background := Some(true)) else config;
    var c2 := if c1.view.None? || c1.view.value == "" then c1.(view := Some("front")) else c1;
    if c2.interactive != Some(true) then c2.(interactive := Some(false)) else c2
  }

  /** A request that already carries its defaults is left as it is. */
  lemma WithCreateDefaultsIsIdempotent(config: EnclosureAppConfig)
    ensures WithCreateDefaults(WithCreateDefaults(config)) == WithCreateDefaults(config)
  {
  }

  // ---------------------------------------------------------------------
  // Drive trays, disks and colour events
  // ---------------------------------------------------------------------

  /** The colour carried by a `ChangeDriveTrayColor` event: 'none',
      '#999999', the theme's accent colour for a pool index, or the theme's
      green, red and yellow. */
  datatype TrayColor = NoColor | Grey | Accent(poolIndex: int) | Green | Red | Yellow

  /** The tray an event addresses: by a tray's own id (a string) or by a
      disk's slot number. */
  datatype TrayRef = TrayId(name: string) | SlotId(slot: int)

  datatype ColorEvent = ChangeDriveTrayColor(id: TrayRef, color: TrayColor)

  datatype DriveTray = DriveTray(id: string, enabled: bool)

  datatype Vdev = Vdev(poolIndex: int)

  /** A disk of the enclosure profile: its slot, its status (empty when it
      has none) and its vdev, if any. */
  datatype Disk = Disk(slot: int, status: string, vdev: Option<Vdev>)

  datatype Pool = Pool(name: string, healthy: bool)

  /** An enclosure's profile: its disks in order and the index of each pool
      by name. */
  datatype Profile = Profile(disks: seq<Disk>, poolKeys: map<string, int>)

  /** A chassis view: its drive trays, the slot numbers it shows and every
      colour event sent to it so far. */
  class ChassisView {
    var driveTrays: seq<DriveTray>
    var events: seq<ColorEvent>
    const slotStart: int
    const slotEnd: int

    constructor (trays: seq<DriveTray>, start: int, end: int)
      ensures driveTrays == trays && events == [] && slotStart == start && slotEnd == end
    {
      driveTrays := trays;
      events := [];
      slotStart := start;
      slotEnd := end;
    }
  }

  // ---------------------------------------------------------------------
  // setDisksDisabled
  // ---------------------------------------------------------------------

  /** One 'none' event per tray, by tray id, in tray order. */
  function DisabledEvents(trays: seq<DriveTray>): (r: seq<ColorEvent>)
    ensures |r| == |trays|
    ensures forall i :: 0 <= i < |trays| ==> r[i] == ChangeDriveTrayColor(TrayId(trays[i].id), NoColor)
  {
    if |trays| == 0 then []
    else
      var n := |trays| - 1;
      assert forall i :: 0 <= i < n ==> trays[..n][i] == trays[i];
      DisabledEvents(trays[..n]) + [ChangeDriveTrayColor(TrayId(trays[n].id), NoColor)]
  }

  /** `setDisksDisabled`: clears the colour of every tray. */
  method SetDisksDisabled(view: ChassisView)
    modifies view`events
    ensures view.events == old(view.events) + DisabledEvents(view.driveTrays)
  {
    for i := 0 to |view.driveTrays|
      invariant view.events == old(view.events) + DisabledEvents(view.driveTrays[..i])
    {
      assert view.driveTrays[..i + 1][..i] == view.driveTrays[..i];
      view.events := view.events + [ChangeDriveTrayColor(TrayId(view.driveTrays[i].id), NoColor)];
    }
    assert view.driveTrays[..|view.driveTrays|] == view.driveTrays;
  }

  // ---------------------------------------------------------------------
  // setDisksPoolState
  // ---------------------------------------------------------------------

  /** A disk whose slot lies in `[start, end]`. */
  function InSlotRange(start: int, end: int): Disk -> bool {
    (d: Disk) => start <= d.slot <= end
  }

  /** Grey for a disk outside any vdev, else the accent colour of its pool. */
  function PoolColor(d: Disk): TrayColor {
    if d.vdev.None? then Grey else Accent(d.vdev.value.poolIndex)
  }

  function PoolColorEvent(d: Disk): ColorEvent {
    ChangeDriveTrayColor(SlotId(d.slot), PoolColor(d))
  }

  /** The pool colour events for the disks whose slots the view shows. */
  function PoolEvents(disks: seq<Disk>, start: int, end: int): seq<ColorEvent> {
    FilterMap(disks, InSlotRange(start, end), PoolColorEvent)
  }

  /** The pool colouring emits, in disk order, one event per disk whose
      slot lies in the range and none for the others; the event addresses
      the disk's slot and is grey exactly when the disk has no vdev. */
  lemma {:induction false} PoolEventsColourDisksInRange(disks: seq<Disk>, start: int, end: int)
    ensures var idx := KeptIndices(disks, InSlotRange(start, end));
            var r := PoolEvents(disks, start, end);
            && |r| == |idx|
            && (forall i :: 0 <= i < |disks| ==> (i in idx <==> start <= disks[i].slot <= end))
            && (forall k, l :: 0 <= k < l < |idx| ==> idx[k] < idx[l])
            && (forall k :: 0 <= k < |idx| ==>
                  && r[k].id == SlotId(disks[idx[k]].slot)
                  && (r[k].color == Grey <==> disks[idx[k]].vdev.None?)
                  && (disks[idx[k]].vdev.Some? ==> r[k].color == Accent(disks[idx[k]].vdev.value.poolIndex)))
  {
    FilterMapIsKeptImage(disks, InSlotRange(start, end), PoolColorEvent);
  }

  /** `setDisksPoolState`: clears every tray, then colours each disk in the
      view's slot range by its pool. */
  method SetDisksPoolState(view: ChassisView, profile: Profile)
    modifies view`events
    ensures view.events == old(view.events) + DisabledEvents(view.driveTrays)
                           + PoolEvents(profile.disks, view.slotStart, view.slotEnd)
  {
    SetDisksDisabled(view);
    var disks := profile.disks;
    for i := 0 to |disks|
      invariant view.events == old(view.events) + DisabledEvents(view.driveTrays)
                               + PoolEvents(disks[..i], view.slotStart, view.slotEnd)
    {
      assert disks[..i + 1][..i] == disks[..i];
      var disk := disks[i];
      if disk.slot < view.slotStart || disk.slot > view.slotEnd {
        // outside the view: nothing
      } else if disk.vdev.None? {
        view.events := view.events + [ChangeDriveTrayColor(SlotId(disk.slot), Grey)];
      } else {
        var pIndex := disk.vdev.value.poolIndex;
        view.events := view.events + [ChangeDriveTrayColor(SlotId(disk.slot), Accent(pIndex))];
      }
    }
    assert disks[..|disks|] == disks;
  }

  // ---------------------------------------------------------------------
  // setDiskHealthState and setDisksHealthState
  // ---------------------------------------------------------------------

  /** The colours the health colouring sends for a disk status: green for
      ONLINE, red for FAULT, grey for AVAILABLE, yellow for any other
      non-empty status, nothing for none; a FAULT disk is then marked
      failed, which sends red once more. */
  function StatusColors(status: string): seq<TrayColor> {
    var first :=
      if status == "" then []
      else if status == "ONLINE" then [Green]
      else if status == "FAULT" then [Red]
      else if status == "AVAILABLE" then [Grey]
      else [Yellow];
    var failed := status == "FAULT";
    first + (if failed then [Red] else [])
  }

  /** No status, no colour; red is sent, and sent last, exactly for a FAULT
      disk, which alone gets two events; only the four status colours
      occur. */
  lemma StatusColorsMarkFaultRed(status: string)
    ensures StatusColors(status) == [] <==> status == ""
    ensures Red in StatusColors(status) <==> status == "FAULT"
    ensures StatusColors(status) != [] ==>
              (StatusColors(status)[|StatusColors(status)| - 1] == Red <==> status == "FAULT")
    ensures |StatusColors(status)| == 2 <==> status == "FAULT"
    ensures forall c :: c in StatusColors(status) ==> c == Green || c == Red || c == Grey || c == Yellow
  {
  }

  /** The events of `StatusColors`, addressed to the disk's slot. */
  function HealthEvents(disk: Disk): seq<ColorEvent> {
    var colors := StatusColors(disk.status);
    seq(|colors|, k requires 0 <= k < |colors| => ChangeDriveTrayColor(SlotId(disk.slot), colors[k]))
  }

  /** The index of the LAST tray whose id is `key`: the filter callback
      overwrites `index` on every match. */
  function LastTrayWithId(trays: seq<DriveTray>, key: string): (m: Option<nat>)
    ensures m.Some? ==> m.value < |trays|
  {
    if |trays| == 0 then None
    else if trays[|trays| - 1].id == key then Some(|trays| - 1)
    else LastTrayWithId(trays[..|trays| - 1], key)
  }

  /** `LastTrayWithId` finds a tray exactly when one has the id, and then
      the last one. */
  lemma {:induction false} LastTrayWithIdIsLastMatch(trays: seq<DriveTray>, key: string)
    ensures var m := LastTrayWithId(trays, key);
            && (m.Some? <==> exists i :: 0 <= i < |trays| && trays[i].id == key)
            && (m.Some? ==> m.value < |trays| && trays[m.value].id == key)
            && (m.Some? ==> forall j :: m.value < j < |trays| ==> trays[j].id != key)
  {
    if |trays| > 0 {
      var n := |trays| - 1;
      LastTrayWithIdIsLastMatch(trays[..n], key);
      assert forall i :: 0 <= i < n ==> trays[..n][i] == trays[i];
    }
  }

  /** The trays and emitted events after `setDiskHealthState(disk)`. */
  function HealthState(trays: seq<DriveTray>, disk: Disk): (seq<DriveTray>, seq<ColorEvent>) {
    var m := LastTrayWithId(trays, IntToString(disk.slot));
    if m.None? then (trays, [])
    else (trays[m.value := trays[m.value].(enabled := disk.slot != 0)], HealthEvents(disk))
  }

  /** When no tray's id is the disk's slot written out, nothing happens;
      otherwise the last such tray is enabled exactly when the slot is not
      0, and the disk's status colours are sent. No other tray changes (not
      even an earlier tray with the same id) and no tray id changes. */
  lemma HealthStateTouchesOnlyItsTray(trays: seq<DriveTray>, disk: Disk)
    ensures var r := HealthState(trays, disk);
            && |r.0| == |trays|
            && (forall i :: 0 <= i < |trays| ==> r.0[i].id == trays[i].id)
            && (forall i :: 0 <= i < |trays| && trays[i].id != IntToString(disk.slot) ==> r.0[i] == trays[i])
            && ((forall i :: 0 <= i < |trays| ==> trays[i].id != IntToString(disk.slot)) ==> r == (trays, []))
            && ((exists i :: 0 <= i < |trays| && trays[i].id == IntToString(disk.slot)) ==>
                  && r.1 == HealthEvents(disk)
                  && exists i :: 0 <= i < |trays| && trays[i].id == IntToString(disk.slot)
                                 && r.0 == trays[i := trays[i].(enabled := disk.slot != 0)]
                                 && forall j :: i < j < |trays| ==> trays[j].id != IntToString(disk.slot))
  {
    LastTrayWithIdIsLastMatch(trays, IntToString(disk.slot));
  }

  /** `setDiskHealthState`. */
  method SetDiskHealthState(view: ChassisView, disk: Disk)
    modifies view
    ensures view.driveTrays == HealthState(old(view.driveTrays), disk).0
    ensures view.events == old(view.events) + HealthState(old(view.driveTrays), disk).1
  {
    var key := IntToString(disk.slot);
    var trays := view.driveTrays;
    var index: Option<nat> := None;
    for i := 0 to |trays|
      invariant index == LastTrayWithId(trays[..i], key)
    {
      assert trays[..i + 1][..i] == trays[..i];
      if trays[i].id == key {
        index := Some(i);
      }
    }
    assert trays[..|trays|] == trays;
    if index.None? {
      return;
    }
    view.driveTrays := trays[index.value := trays[index.value].(enabled := disk.slot != 0)];

    var failed := false;
    var emitted: seq<TrayColor> := [];
    if disk.status != "" {
      if disk.status == "ONLINE" {
        emitted := emitted + [Green];
      } else if disk.status == "FAULT" {
        failed := true;
        emitted := emitted + [Red];
      } else if disk.status == "AVAILABLE" {
        emitted := emitted + [Grey];
      } else {
        emitted := emitted + [Yellow];
      }
    }
    // The slot's own fault flag is read off the filtered array of slot
    // elements, where it is always undefined.
    var slotFault := false;
    if !failed && slotFault {
      failed := true;
    }
    if failed {
      emitted := emitted + [Red];
    }
    assert emitted == StatusColors(disk.status);
    view.events := view.events + seq(|emitted|, k requires 0 <= k < |emitted| =>
                                   ChangeDriveTrayColor(SlotId(disk.slot), emitted[k]));
  }

  /** The trays and events after `setDiskHealthState` for each disk in turn. */
  function HealthAll(trays: seq<DriveTray>, disks: seq<Disk>): (seq<DriveTray>, seq<ColorEvent>) {
    FoldSteps(HealthState, trays, disks)
  }

  /** Colouring every disk by health keeps the trays and their ids, and
      touches no tray whose id is not the slot of one of the disks. */
  lemma {:induction false} HealthAllKeepsOtherTrays(trays: seq<DriveTray>, disks: seq<Disk>)
    ensures |HealthAll(trays, disks).0| == |trays|
    ensures forall i :: 0 <= i < |trays| ==> HealthAll(trays, disks).0[i].id == trays[i].id
    ensures forall i :: 0 <= i < |trays| && (forall d :: d in disks ==> trays[i].id != IntToString(d.slot)) ==>
              HealthAll(trays, disks).0[i] == trays[i]
  {
    if |disks| > 0 {
      var init := disks[..|disks| - 1];
      HealthAllKeepsOtherTrays(trays, init);
      HealthStateTouchesOnlyItsTray(HealthAll(trays, init).0, disks[|disks| - 1]);
      forall i | 0 <= i < |trays| && (forall d :: d in disks ==> trays[i].id != IntToString(d.slot))
        ensures HealthAll(trays, disks).0[i] == trays[i]
      {
        assert forall d :: d in init ==> d in disks;
      }
    }
  }

  /** `setDisksHealthState`: the given disk only, or else every disk of the
      profile in turn. */
  method SetDisksHealthState(view: ChassisView, profile: Profile, disk: Option<Disk>)
    modifies view
    ensures var r := if disk.Some? then HealthState(old(view.driveTrays), disk.value)
                     else HealthAll(old(view.driveTrays), profile.disks);
            view.driveTrays == r.0 && view.events == old(view.events) + r.1
  {
    if disk.Some? {
      SetDiskHealthState(view, disk.value);
    } else {
      SetEveryDiskHealthState(view, profile.disks);
    }
  }

  /** The loop of `setDisksHealthState` over the profile's disks. */
  method SetEveryDiskHealthState(view: ChassisView, disks: seq<Disk>)
    modifies view
    ensures view.driveTrays == HealthAll(old(view.driveTrays), disks).0
    ensures view.events == old(view.events) + HealthAll(old(view.driveTrays), disks).1
  {
    ghost var trays0, events0 := view.driveTrays, view.events;
    for i := 0 to |disks|
      invariant view.driveTrays == HealthAll(trays0, disks[..i]).0
      invariant view.events == events0 + HealthAll(trays0, disks[..i]).1
    {
      ghost var trays, events := view.driveTrays, view.events;
      SetDiskHealthState(view, disks[i]);
      FoldStepsSnoc(HealthState, trays0, disks, i, trays, events0, events, view.driveTrays, view.events);
    }
    assert disks[..|disks|] == disks;
  }

  // ---------------------------------------------------------------------
  // findDiskBySlotNumber and setDisksEnabledState
  // ---------------------------------------------------------------------

  /** The position of the first disk in slot `slot`, or `|disks|`. */
  function FirstDiskInSlot(disks: seq<Disk>, slot: int): (i: nat)
    ensures i <= |disks|
    ensures forall j :: 0 <= j < i ==> disks[j].slot != slot
    ensures i < |disks| ==> disks[i].slot == slot
  {
    if |disks| == 0 then 0
    else if disks[0].slot == slot then 0
    else 1 + FirstDiskInSlot(disks[1..], slot)
  }

  /** `findDiskBySlotNumber`: the first disk, in profile order, whose slot
      is `slot`; undefined when there is none or the number is NaN (`None`). */
  function FindDiskBySlotNumber(disks: seq<Disk>, slot: Option<int>): (d: Option<Disk>)
    ensures d.Some? <==> slot.Some? && exists i :: 0 <= i < |disks| && disks[i].slot == slot.value
    ensures d.Some? ==> exists i :: 0 <= i < |disks| && disks[i] == d.value && disks[i].slot == slot.value
                                    && forall j :: 0 <= j < i ==> disks[j].slot != slot.value
  {
    if slot.None? then None
    else
      var i := FirstDiskInSlot(disks, slot.value);
      if i < |disks| then Some(disks[i]) else None
  }

  /** A tray after `setDisksEnabledState`: enabled exactly when a disk sits
      in the slot `Number(tray.id)`. */
  function TrayEnabled(tray: DriveTray, disks: seq<Disk>): DriveTray {
    tray.(enabled := FindDiskBySlotNumber(disks, ToNumber(tray.id)).Some?)
  }

  /** The trays after `setDisksEnabledState`. */
  function EnabledTrays(trays: seq<DriveTray>, disks: seq<Disk>): seq<DriveTray> {
    seq(|trays|, i requires 0 <= i < |trays| => TrayEnabled(trays[i], disks))
  }

  /** After `setDisksEnabledState` the trays are the same trays, and each is
      enabled exactly when its id reads as a number and some disk sits in
      that slot. */
  lemma EnabledTraysFollowDisks(trays: seq<DriveTray>, disks: seq<Disk>)
    ensures |EnabledTrays(trays, disks)| == |trays|
    ensures forall i :: 0 <= i < |trays| ==>
              && EnabledTrays(trays, disks)[i].id == trays[i].id
              && (EnabledTrays(trays, disks)[i].enabled <==>
                    ToNumber(trays[i].id).Some? && exists d :: d in disks && d.slot == ToNumber(trays[i].id).value)
  {
    forall i | 0 <= i < |trays|
      ensures EnabledTrays(trays, disks)[i].enabled <==>
                ToNumber(trays[i].id).Some? && exists d :: d in disks && d.slot == ToNumber(trays[i].id).value
    {
      var n := ToNumber(trays[i].id);
      if n.Some? && exists d :: d in disks && d.slot == n.value {
        var d :| d in disks && d.slot == n.value;
        var k :| 0 <= k < |disks| && disks[k] == d;
        assert disks[k].slot == n.value;
      }
    }
  }

  /** `setDisksEnabledState`. */
  method SetDisksEnabledState(view: ChassisView, profile: Profile)
    modifies view`driveTrays
    ensures view.driveTrays == EnabledTrays(old(view.driveTrays), profile.disks)
  {
    ghost var trays0 := view.driveTrays;
    for i := 0 to |view.driveTrays|
      invariant |view.driveTrays| == |trays0|
      invariant forall k :: 0 <= k < i ==> view.driveTrays[k] == TrayEnabled(trays0[k], profile.disks)
      invariant forall k :: i <= k < |trays0| ==> view.driveTrays[k] == trays0[k]
    {
      var dt := view.driveTrays[i];
      var disk := FindDiskBySlotNumber(profile.disks, ToNumber(dt.id));
      view.driveTrays := view.driveTrays[i := dt.(enabled := disk.Some?)];
    }
  }

  // ---------------------------------------------------------------------
  // setCurrentView
  // ---------------------------------------------------------------------

  /** `setCurrentView`: the `show` of the request, or the default view when
      it is empty, picks the colouring: pools, or status (clear, then
      health); any other value, the default 'front' included, recolours
      nothing. */
  method SetCurrentView(view: ChassisView, config: EnclosureAppConfig, profile: Profile)
    modifies view
    ensures var show := if config.show != "" then config.show else DefaultView;
            && (show == "pools" ==>
                  && view.driveTrays == old(view.driveTrays)
                  && view.events == old(view.events) + DisabledEvents(old(view.driveTrays))
                                    + PoolEvents(profile.disks, view.slotStart, view.slotEnd))
            && (show == "status" ==>
                  && view.driveTrays == HealthAll(old(view.driveTrays), profile.disks).0
                  && view.events == old(view.events) + DisabledEvents(old(view.driveTrays))
                                    + HealthAll(old(view.driveTrays), profile.disks).1)
            && (show != "pools" && show != "status" ==>
                  view.driveTrays == old(view.driveTrays) && view.events == old(view.events))
  {
    var show := if config.show != "" then config.show else DefaultView;
    if show == "pools" {
      SetDisksPoolState(view, profile);
    } else if show == "status" {
      SetDisksDisabled(view);
      SetDisksHealthState(view, profile, None);
    }
  }

  // ---------------------------------------------------------------------
  // getUnhealthyPools
  // ---------------------------------------------------------------------

  /** Each element of `s` with its position. */
  function Indexed<T>(s: seq<T>): seq<(int, T)> {
    seq(|s|, i requires 0 <= i < |s| => (i, s[i]))
  }

  /** A pool at a position is sick when it is not healthy and the profile
      files it under that same position. */
  function IsSickIn(poolKeys: map<string, int>): ((int, Pool)) -> bool {
    (e: (int, Pool)) => !e.1.healthy && e.1.name in poolKeys && poolKeys[e.1.name] == e.0
  }

  function PoolOf(e: (int, Pool)): Pool {
    e.1
  }

  /** The sick pools, in pool order. */
  function SickPools(pools: seq<Pool>, poolKeys: map<string, int>): seq<Pool> {
    FilterMap(Indexed(pools), IsSickIn(poolKeys), PoolOf)
  }

  /** The sick pools are exactly, and in order, the pools that are not
      healthy and whose position is the one the profile files them under. */
  lemma {:induction false} SickPoolsAreExactlyUnhealthyOnes(pools: seq<Pool>, poolKeys: map<string, int>)
    ensures var idx := KeptIndices(Indexed(pools), IsSickIn(poolKeys));
            var r := SickPools(pools, poolKeys);
            && |r| == |idx| <= |pools|
            && (forall i :: 0 <= i < |pools| ==>
                  (i in idx <==> !pools[i].healthy && pools[i].name in poolKeys && poolKeys[pools[i].name] == i))
            && (forall k, l :: 0 <= k < l < |idx| ==> idx[k] < idx[l])
            && (forall k :: 0 <= k < |idx| ==> r[k] == pools[idx[k]])
  {
    FilterMapIsKeptImage(Indexed(pools), IsSickIn(poolKeys), PoolOf);
  }

  /** `getUnhealthyPools`. */
  method GetUnhealthyPools(pools: seq<Pool>, profile: Profile) returns (sickPools: seq<Pool>)
    ensures sickPools == SickPools(pools, profile.poolKeys)
  {
    sickPools := [];
    for index := 0 to |pools|
      invariant sickPools == SickPools(pools[..index], profile.poolKeys)
    {
      assert Indexed(pools[..index + 1])[..index] == Indexed(pools[..index]);
      var pool := pools[index];
      var healthy := pool.healthy;
      var inCurrentEnclosure := pool.name in profile.poolKeys && index == profile.poolKeys[pool.name];
      if !healthy && inCurrentEnclosure {
        sickPools := sickPools + [pool];
      }
    }
    assert pools[..|pools|] == pools;
  }
}
