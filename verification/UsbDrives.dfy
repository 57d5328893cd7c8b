/**
 The USB drive table. One reply of the device service is read twice: into the table that four
 lookups search, and into the list of drives shown to clients, whose drive ids the lookups are later
 asked about.
 */
module UsbDrives {
  import opened Strings
  import opened Wrappers
  import Paths

  // ---------------------------------------------------------------------------------------------
  // The reply
  // ---------------------------------------------------------------------------------------------

  /** One element of "storageDriveList"; a field that is absent is None. */
  datatype DriveEntry = DriveEntry(driveName: Option<string>, uuid: Option<string>, isMounted: Option<bool>)

  /** One element of "storageDeviceList". */
  datatype DeviceEntry = DeviceEntry(
    serialNumber: Option<string>, deviceNum: Option<int>, storageDriveList: Option<seq<DriveEntry>>)

  /** The reply; a list that is absent, or not an array, is None. */
  datatype Reply = Reply(
    returnValue: bool,
    deviceListInfo: Option<seq<Option<seq<DeviceEntry>>>>,
    storageDeviceList: Option<seq<DeviceEntry>>)

  function OrEmpty(s: Option<string>): string {
    if s.Some? then s.value else ""
  }

  function DrivesOf(d: DeviceEntry): seq<DriveEntry> {
    if d.storageDriveList.Some? then d.storageDriveList.value else []
  }

  /** The devices the reply lists: those at the top level, else those of an only element of "deviceListInfo". */
  function Devices(r: Reply): seq<DeviceEntry> {
    if r.storageDeviceList.Some? then r.storageDeviceList.value
    else if r.deviceListInfo.Some? && |r.deviceListInfo.value| == 1 && r.deviceListInfo.value[0].Some? then
      r.deviceListInfo.value[0].value
    else []
  }

  // ---------------------------------------------------------------------------------------------
  // The table
  // ---------------------------------------------------------------------------------------------

  datatype DriveInfo = DriveInfo(name: string, uuid: string, mounted: bool)

  datatype DeviceInfo = DeviceInfo(number: int, drives: seq<DriveInfo>)

  type Table = map<string, DeviceInfo>

  function DriveInfoOf(d: DriveEntry): DriveInfo {
    DriveInfo(OrEmpty(d.driveName), OrEmpty(d.uuid), d.isMounted == Some(true))
  }

  function DriveInfosOf(ds: seq<DriveEntry>): (r: seq<DriveInfo>)
    ensures |r| == |ds|
  {
    seq(|ds|, j requires 0 <= j < |ds| => DriveInfoOf(ds[j]))
  }

  function InfoOf(d: DeviceEntry): DeviceInfo {
    DeviceInfo(if d.deviceNum.Some? then d.deviceNum.value else 0, DriveInfosOf(DrivesOf(d)))
  }

  /** The table after the devices were stored in order; a device without a serial number is not stored. */
  function Tabulate(table: Table, devs: seq<DeviceEntry>): Table
    decreases |devs|
  {
    if devs == [] then table
    else
      var last := devs[|devs| - 1];
      var t := Tabulate(table, devs[..|devs| - 1]);
      if last.serialNumber.Some? then t[last.serialNumber.value := InfoOf(last)] else t
  }

  /** The last device with a serial number, or |devs|. */
  function LastWith(devs: seq<DeviceEntry>, serial: string): (i: nat)
    ensures i <= |devs|
    ensures i < |devs| ==> devs[i].serialNumber == Some(serial)
    ensures forall k :: 0 <= k < |devs| && devs[k].serialNumber == Some(serial) ==> k <= i < |devs|
  {
    if devs == [] then 0
    else if devs[|devs| - 1].serialNumber == Some(serial) then |devs| - 1
    else
      var i := LastWith(devs[..|devs| - 1], serial);
      if i == |devs| - 1 then |devs| else i
  }

  /** The table holds, for each serial number, the last device that has it, and nothing else. */
  lemma {:induction false} TableHoldsLast(devs: seq<DeviceEntry>, serial: string)
    ensures var t := Tabulate(map[], devs); var i := LastWith(devs, serial);
            && (serial in t <==> i < |devs|)
            && (i < |devs| ==> t[serial] == InfoOf(devs[i]))
  {
    if devs != [] {
      TableHoldsLast(devs[..|devs| - 1], serial);
    }
  }

  // ---------------------------------------------------------------------------------------------
  // Finding a drive
  // ---------------------------------------------------------------------------------------------

  /** The part of a drive id before its first '-', or all of it. */
  function MainId(driveId: string): string {
    driveId[..Find(driveId, '-', 0)]
  }

  /** The part of a drive id after its first '-', or nothing. */
  function SubId(driveId: string): string {
    var i := Find(driveId, '-', 0);
    if i < |driveId| then driveId[i + 1..] else ""
  }

  /** The first drive with a uuid, or |drives|. */
  function FirstUuid(drives: seq<DriveInfo>, uuid: string): (k: nat)
    ensures k <= |drives|
    ensures k < |drives| ==> drives[k].uuid == uuid
    ensures forall j :: 0 <= j < k ==> drives[j].uuid != uuid
  {
    if drives == [] then 0
    else if drives[0].uuid == uuid then 0
    else 1 + FirstUuid(drives[1..], uuid)
  }

  datatype Place = NoDevice | NoDrives | Ambiguous | NoSub | At(serial: string, k: nat)

  /** Where in the table a drive id leads. */
  function Locate(table: Table, driveId: string): (p: Place)
    ensures p.At? ==> p.serial in table && p.k < |table[p.serial].drives|
  {
    var main, sub := MainId(driveId), SubId(driveId);
    if main !in table then NoDevice
    else
      var drives := table[main].drives;
      if drives == [] then NoDrives
      else if sub == "" then if |drives| == 1 then At(main, 0) else Ambiguous
      else
        var k := FirstUuid(drives, sub);
        if k < |drives| then At(main, k) else NoSub
  }

  /** The name found at a place. Among several drives, one without a name counts as not found. */
  function NameAt(table: Table, p: Place): string
    requires p.At? ==> p.serial in table && p.k < |table[p.serial].drives|
  {
    match p
    case NoDevice => ""
    case NoDrives => ""
    case Ambiguous => "UUID"
    case NoSub => "NO SUB"
    case At(serial, k) =>
      var drives := table[serial].drives;
      if |drives| > 1 && drives[k].name == "" then "NO SUB" else drives[k].name
  }

  /** The outcomes of the checks before a request is passed on. */
  datatype Answer =
    | StorageNotExists
    | DriveNotMounted
    | MorePartitions
    | SubStorageNotExists
    | Proceeds(driveName: string)

  class USBStorageProvider {
    var usbStorages: Table

    constructor ()
      ensures usbStorages == map[]
    {
      usbStorages := map[];
    }

    method CleanDeviceInfo()
      modifies this
      ensures usbStorages == map[]
    {
      usbStorages := map[];
    }

    /** The nested loops over the devices of the reply and the drives of each. */
    method PopulateDeviceInfo(reply: Reply)
      modifies this
      ensures usbStorages == Tabulate(old(usbStorages), Devices(reply))
    {
      var infoObj: seq<DeviceEntry> := [];
      if reply.deviceListInfo.Some? {
        if |reply.deviceListInfo.value| == 1 {
          if reply.deviceListInfo.value[0].Some? {
            infoObj := reply.deviceListInfo.value[0].value;
          }
        }
      }
      if reply.storageDeviceList.Some? {
        infoObj := reply.storageDeviceList.value;
      }
      for i := 0 to |infoObj|
        invariant usbStorages == Tabulate(old(usbStorages), infoObj[..i])
      {
        assert infoObj[..i + 1][..i] == infoObj[..i];
        var number := 0;
        if infoObj[i].deviceNum.Some? {
          number := infoObj[i].deviceNum.value;
        }
        var drives := CollectDrives(infoObj[i]);
        if infoObj[i].serialNumber.Some? {
          usbStorages := usbStorages[infoObj[i].serialNumber.value := DeviceInfo(number, drives)];
        }
      }
      assert infoObj[..|infoObj|] == infoObj;
    }

    method CollectDrives(d: DeviceEntry) returns (drives: seq<DriveInfo>)
      ensures drives == DriveInfosOf(DrivesOf(d))
    {
      drives := [];
      if d.storageDriveList.Some? {
        var list := d.storageDriveList.value;
        for j := 0 to |list|
          invariant drives == DriveInfosOf(list[..j])
        {
          var name, uuid, mounted := "", "", false;
          if list[j].driveName.Some? {
            name := list[j].driveName.value;
          }
          if list[j].uuid.Some? {
            uuid := list[j].uuid.value;
          }
          if list[j].isMounted.Some? {
            mounted := list[j].isMounted.value;
          }
          drives := drives + [DriveInfo(name, uuid, mounted)];
        }
        assert list[..|list|] == list;
      }
    }

    method SplitId(driveId: string) returns (mainId: string, subId: string)
      ensures mainId == MainId(driveId) && subId == SubId(driveId)
    {
      mainId, subId := "", "";
      var subIndex := Find(driveId, '-', 0);
      if subIndex != |driveId| {
        mainId := driveId[..subIndex];
        subId := driveId[subIndex + 1..];
      } else {
        mainId := driveId;
      }
    }

    /** The first drive with a uuid: the inner loop all lookups share. */
    method FindUuid(drives: seq<DriveInfo>, subId: string) returns (k: nat)
      ensures k == FirstUuid(drives, subId)
    {
      k := 0;
      while k < |drives|
        invariant k <= |drives|
        invariant FirstUuid(drives, subId) == k + FirstUuid(drives[k..], subId)
      {
        if drives[k].uuid == subId {
          return;
        }
        assert drives[k..][1..] == drives[k + 1..];
        k := k + 1;
      }
    }

    method GetDriveName(driveId: string) returns (usbDriveName: string)
      ensures usbDriveName == NameAt(usbStorages, Locate(usbStorages, driveId))
      ensures var p := Locate(usbStorages, driveId);
              && (p == NoDevice || p == NoDrives ==> usbDriveName == "")
              && (p == Ambiguous ==> usbDriveName == "UUID")
              && (p == NoSub ==> usbDriveName == "NO SUB")
    {
      var mainId, subId := SplitId(driveId);
      usbDriveName := "";
      var rest := usbStorages.Keys;
      while rest != {}
        invariant rest <= usbStorages.Keys
        invariant mainId in usbStorages && mainId !in rest ==>
                    usbDriveName == NameAt(usbStorages, Locate(usbStorages, driveId))
        invariant mainId !in usbStorages || mainId in rest ==> usbDriveName == ""
        decreases |rest|
      {
        var it :| it in rest;
        rest := rest - {it};
        if it == mainId {
          var drives := usbStorages[it].drives;
          if subId == "" && |drives| == 1 {
            usbDriveName := drives[0].name;
            break;
          } else if subId != "" && |drives| == 1 {
            if drives[0].uuid == subId {
              usbDriveName := drives[0].name;
            } else {
              usbDriveName := "NO SUB";
            }
            break;
          } else if subId != "" && |drives| > 1 {
            var k := FindUuid(drives, subId);
            if k < |drives| {
              usbDriveName := drives[k].name;
            }
            if usbDriveName == "" {
              usbDriveName := "NO SUB";
              break;
            }
          } else if subId == "" && |drives| > 1 {
            usbDriveName := "UUID";
          }
        }
      }
    }

    method IsStorageIdExists(driveId: string) returns (r: bool)
      ensures r <==> Locate(usbStorages, driveId).At?
    {
      var mainId, subId := SplitId(driveId);
      var rest := usbStorages.Keys;
      while rest != {}
        invariant rest <= usbStorages.Keys
        invariant mainId in usbStorages && mainId !in rest ==> !Locate(usbStorages, driveId).At?
        decreases |rest|
      {
        var it :| it in rest;
        rest := rest - {it};
        if it == mainId {
          var drives := usbStorages[it].drives;
          if subId == "" && |drives| == 1 {
            return true;
          } else if subId != "" && |drives| == 1 {
            if drives[0].uuid == subId {
              return true;
            }
          } else if subId != "" && |drives| > 1 {
            var k := FindUuid(drives, subId);
            if k < |drives| {
              return true;
            }
          }
        }
      }
      return false;
    }

    method IsStorageDriveMounted(actualDevId: string) returns (r: bool)
      ensures var p := Locate(usbStorages, actualDevId);
              r <==> p.At? && usbStorages[p.serial].drives[p.k].mounted
    {
      var mainId, subId := SplitId(actualDevId);
      var rest := usbStorages.Keys;
      while rest != {}
        invariant rest <= usbStorages.Keys
        invariant mainId in usbStorages && mainId !in rest ==> !Locate(usbStorages, actualDevId).At?
        decreases |rest|
      {
        var it :| it in rest;
        rest := rest - {it};
        if it == mainId {
          var drives := usbStorages[it].drives;
          if subId == "" && |drives| == 1 {
            return drives[0].mounted;
          } else if subId != "" && |drives| == 1 {
            if drives[0].uuid == subId {
              return drives[0].mounted;
            }
          } else if subId != "" && |drives| > 1 {
            var k := FindUuid(drives, subId);
            if k < |drives| {
              return drives[k].mounted;
            }
          }
        }
      }
      return false;
    }

    /** The device number, whatever the part of the id after the first '-'. */
    method GetStorageNumber(actualDevId: string) returns (n: int)
      ensures n == if MainId(actualDevId) in usbStorages then usbStorages[MainId(actualDevId)].number else 0
    {
      var mainId, _ := SplitId(actualDevId);
      var rest := usbStorages.Keys;
      while rest != {}
        invariant rest <= usbStorages.Keys
        invariant mainId in usbStorages ==> mainId in rest
        decreases |rest|
      {
        var it :| it in rest;
        rest := rest - {it};
        if it == mainId {
          return usbStorages[it].number;
        }
      }
      return 0;
    }

    /**
     The guards of the properties request. Once the id exists, the two sentinels can no longer mean
     what they were made for: "UUID" comes back only from a drive of that name, "NO SUB" only from a
     drive of that name or from a nameless one among several.
     */
    method GetPropertiesMethod(driveId: string) returns (a: Answer)
      ensures var p := Locate(usbStorages, driveId);
              if !p.At? then a == StorageNotExists
              else
                var drives := usbStorages[p.serial].drives;
                var drive := drives[p.k];
                if !drive.mounted then a == DriveNotMounted
                else if drive.name == "UUID" then a == MorePartitions
                else if drive.name == "NO SUB" || (drive.name == "" && |drives| > 1) then a == SubStorageNotExists
                else a == Proceeds(drive.name)
    {
      var known := IsStorageIdExists(driveId);
      if !known {
        return StorageNotExists;
      }
      var mounted := IsStorageDriveMounted(driveId);
      if !mounted {
        return DriveNotMounted;
      }
      var devDriveName := GetDriveName(driveId);
      if devDriveName == "UUID" {
        return MorePartitions;
      } else if devDriveName == "NO SUB" {
        return SubStorageNotExists;
      }
      return Proceeds(devDriveName);
    }

    /** What a reply to the list request does: the table is rebuilt from it, and the list shown is printed from it. */
    method OnListStorages(root: Reply) returns (listing: Listing)
      modifies this
      ensures usbStorages == Tabulate(map[], Devices(root))
      ensures listing == ListingOf(root)
    {
      CleanDeviceInfo();
      PopulateDeviceInfo(root);
      listing := ParseListOfStorages(root);
    }
  }

  // ---------------------------------------------------------------------------------------------
  // The list shown to clients
  // ---------------------------------------------------------------------------------------------

  datatype Shown = Shown(driveName: Option<string>, driveId: Option<string>)

  datatype Listing = MoreAttachedStorages | Usb(drives: seq<Shown>)

  function DriveId(d: DeviceEntry, uuid: string): string {
    OrEmpty(d.serialNumber) + "-" + uuid
  }

  function ShownDrive(d: DeviceEntry, e: DriveEntry): Shown {
    Shown(e.driveName, if e.uuid.Some? then Some(DriveId(d, e.uuid.value)) else None)
  }

  function ShownDrives(d: DeviceEntry, n: nat): (r: seq<Shown>)
    requires n <= |DrivesOf(d)|
    ensures |r| == n
  {
    seq(n, j requires 0 <= j < n => ShownDrive(d, DrivesOf(d)[j]))
  }

  function ShownDevices(devs: seq<DeviceEntry>): seq<Shown> {
    if devs == [] then []
    else
      var last := devs[|devs| - 1];
      ShownDevices(devs[..|devs| - 1]) + ShownDrives(last, |DrivesOf(last)|)
  }

  function ListingOf(r: Reply): Listing {
    if !r.returnValue then Usb([])
    else if r.deviceListInfo.Some? && |r.deviceListInfo.value| > 1 then MoreAttachedStorages
    else Usb(ShownDevices(Devices(r)))
  }

  method ParseListOfStorages(replyObj: Reply) returns (listing: Listing)
    ensures listing == ListingOf(replyObj)
  {
    var usbArray: seq<DeviceEntry> := [];
    var responseArray: seq<Shown> := [];
    if replyObj.returnValue {
      if replyObj.deviceListInfo.Some? {
        if |replyObj.deviceListInfo.value| > 1 {
          return MoreAttachedStorages;
        } else if |replyObj.deviceListInfo.value| == 1 {
          if replyObj.deviceListInfo.value[0].Some? {
            usbArray := replyObj.deviceListInfo.value[0].value;
          }
        }
      }
      if replyObj.storageDeviceList.Some? {
        usbArray := replyObj.storageDeviceList.value;
      }
    }
    if |usbArray| == 0 {
      return Usb([]);
    }
    for i := 0 to |usbArray|
      invariant responseArray == ShownDevices(usbArray[..i])
    {
      ghost var before := responseArray;
      assert usbArray[..i + 1][..i] == usbArray[..i];
      if usbArray[i].storageDriveList.Some? {
        var list := usbArray[i].storageDriveList.value;
        for j := 0 to |list|
          invariant responseArray == before + ShownDrives(usbArray[i], j)
        {
          var driveId := None;
          if list[j].uuid.Some? {
            driveId := Some(OrEmpty(usbArray[i].serialNumber) + "-" + list[j].uuid.value);
          }
          responseArray := responseArray + [Shown(list[j].driveName, driveId)];
        }
      }
    }
    assert usbArray[..|usbArray|] == usbArray;
    listing := Usb(responseArray);
  }

  predicate IsEntry(devs: seq<DeviceEntry>, i: nat, j: nat) {
    i < |devs| && j < |DrivesOf(devs[i])|
  }

  /** Every drive shown is one drive of one device. */
  lemma {:induction false} ShownIsAnEntry(devs: seq<DeviceEntry>, s: Shown) returns (i: nat, j: nat)
    requires s in ShownDevices(devs)
    ensures IsEntry(devs, i, j) && s == ShownDrive(devs[i], DrivesOf(devs[i])[j])
  {
    var n := |devs| - 1;
    var shown := ShownDrives(devs[n], |DrivesOf(devs[n])|);
    if s in shown {
      var l :| 0 <= l < |shown| && shown[l] == s;
      i, j := n, l;
    } else {
      i, j := ShownIsAnEntry(devs[..n], s);
    }
  }

  /** Every drive of every device is shown. */
  lemma {:induction false} EntryIsShown(devs: seq<DeviceEntry>, i: nat, j: nat)
    requires IsEntry(devs, i, j)
    ensures ShownDrive(devs[i], DrivesOf(devs[i])[j]) in ShownDevices(devs)
  {
    var n := |devs| - 1;
    if i < n {
      EntryIsShown(devs[..n], i, j);
    } else {
      assert ShownDrives(devs[n], |DrivesOf(devs[n])|)[j] == ShownDrive(devs[i], DrivesOf(devs[i])[j]);
    }
  }

  /** The reply lists these devices: at its top level, or else in the only element of "deviceListInfo". */
  predicate Lists(reply: Reply, devs: seq<DeviceEntry>) {
    || reply.storageDeviceList == Some(devs)
    || (reply.storageDeviceList.None? && reply.deviceListInfo == Some([Some(devs)]))
  }

  /** The reply lists no devices at all. */
  predicate ListsNothing(reply: Reply) {
    && reply.storageDeviceList.None?
    && (reply.deviceListInfo.None? || |reply.deviceListInfo.value| != 1 || reply.deviceListInfo.value[0].None?)
  }

  /** A reply is refused exactly when it is a success with more than one device list; a failed one shows nothing. */
  lemma RefusedExactly(reply: Reply)
    ensures ListingOf(reply) == MoreAttachedStorages
            <==> reply.returnValue && reply.deviceListInfo.Some? && |reply.deviceListInfo.value| > 1
    ensures !reply.returnValue || (ListsNothing(reply) && ListingOf(reply).Usb?) ==> ListingOf(reply) == Usb([])
  {
  }

  /**
   What a reply that is not refused shows: for every drive of every device it lists an entry with
   its name and, exactly if it has a uuid, the id made of serial number and uuid; and nothing else.
   */
  lemma ShownExactly(reply: Reply, devs: seq<DeviceEntry>, s: Shown)
    requires reply.returnValue && (reply.deviceListInfo.Some? ==> |reply.deviceListInfo.value| <= 1)
    requires Lists(reply, devs)
    ensures ListingOf(reply).Usb?
    ensures s in ListingOf(reply).drives
            <==> exists i: nat, j: nat :: IsEntry(devs, i, j) && ShownFrom(s, devs[i], DrivesOf(devs[i])[j])
  {
    if s in ListingOf(reply).drives {
      var i, j := ShownIsAnEntry(devs, s);
      ShownDriveIs(s, devs[i], DrivesOf(devs[i])[j]);
      assert IsEntry(devs, i, j) && ShownFrom(s, devs[i], DrivesOf(devs[i])[j]);
    }
    if i: nat, j: nat :| IsEntry(devs, i, j) && ShownFrom(s, devs[i], DrivesOf(devs[i])[j]) {
      ShownDriveIs(s, devs[i], DrivesOf(devs[i])[j]);
      EntryIsShown(devs, i, j);
    }
  }

  lemma ShownDriveIs(s: Shown, d: DeviceEntry, e: DriveEntry)
    ensures s == ShownDrive(d, e) <==> ShownFrom(s, d, e)
  {
    if e.uuid.Some? {
      assert "" + "-" + e.uuid.value == "-" + e.uuid.value;
    }
  }

  predicate ShownFrom(s: Shown, d: DeviceEntry, e: DriveEntry) {
    && s.driveName == e.driveName
    && (s.driveId.Some? <==> e.uuid.Some?)
    && (e.uuid.Some? && d.serialNumber.Some? ==> s.driveId == Some(d.serialNumber.value + "-" + e.uuid.value))
    && (e.uuid.Some? && d.serialNumber.None? ==> s.driveId == Some("-" + e.uuid.value))
  }

  /** The table after a reply knows exactly the serial numbers of the devices it lists, whatever else the reply says. */
  lemma TabledExactly(reply: Reply, devs: seq<DeviceEntry>, serial: string)
    ensures ListsNothing(reply) ==> Tabulate(map[], Devices(reply)) == map[]
    ensures Lists(reply, devs) ==>
              var t := Tabulate(map[], Devices(reply)); var i := LastWith(devs, serial);
              && (serial in t <==> exists d <- devs :: d.serialNumber == Some(serial))
              && (serial in t ==> i < |devs| && t[serial] == InfoOf(devs[i]))
  {
    TableHoldsLast(devs, serial);
    if Lists(reply, devs) {
      var i := LastWith(devs, serial);
      if i < |devs| {
        assert devs[i] in devs;
      }
    }
  }

  // ---------------------------------------------------------------------------------------------
  // From a shown id back to its entry
  // ---------------------------------------------------------------------------------------------

  /** The id leads to drive j of device i of the reply the table was filled from. */
  predicate LeadsTo(devs: seq<DeviceEntry>, driveId: string, i: nat, j: nat) {
    var p := Locate(Tabulate(map[], devs), driveId);
    p.At? && LastWith(devs, p.serial) == i && p.k == j
  }

  /** The entry's own fields let its id lead back to it. */
  predicate Findable(devs: seq<DeviceEntry>, i: nat, j: nat)
    requires IsEntry(devs, i, j) && DrivesOf(devs[i])[j].uuid.Some?
  {
    var drives := DrivesOf(devs[i]);
    && devs[i].serialNumber.Some? && '-' !in devs[i].serialNumber.value
    && (forall k :: i < k < |devs| ==> devs[k].serialNumber != devs[i].serialNumber)
    && (if drives[j].uuid.value == "" then |drives| == 1
        else forall k :: 0 <= k < j ==> OrEmpty(drives[k].uuid) != drives[j].uuid.value)
  }

  lemma PartsOfDriveId(main: string, sub: string)
    ensures MainId(main + "-" + sub) == main <==> '-' !in main
    ensures '-' !in main ==> SubId(main + "-" + sub) == sub
  {
    var id := main + "-" + sub;
    if '-' !in main {
      Paths.FindIs(id, '-', 0, |main|, main);
    }
    var e := Find(id, '-', 0);
    assert id[0..e] == id[..e];
  }

  lemma FirstUuidIs(drives: seq<DriveInfo>, j: nat)
    requires j < |drives|
    ensures FirstUuid(drives, drives[j].uuid) == j <==> forall k :: 0 <= k < j ==> drives[k].uuid != drives[j].uuid
  {
  }

  /** Where an id leads that has a dash-free part before its first dash. */
  lemma DashedIdLeads(table: Table, main: string, sub: string)
    requires '-' !in main && main in table && sub != ""
    ensures var drives, p := table[main].drives, Locate(table, main + "-" + sub);
            && (p == NoDrives <==> drives == [])
            && (p == NoSub <==> drives != [] && forall k :: 0 <= k < |drives| ==> drives[k].uuid != sub)
            && (forall k: nat ::
                  p == At(main, k)
                  <==> k < |drives| && drives[k].uuid == sub && forall j :: 0 <= j < k ==> drives[j].uuid != sub)
  {
    PartsOfDriveId(main, sub);
  }

  /** An id that is a serial number alone, or with a dash behind it, leads to the only drive of its device. */
  lemma BareIdLeads(table: Table, serial: string)
    requires '-' !in serial && serial in table
    ensures var drives := table[serial].drives;
            Locate(table, serial) == Locate(table, serial + "-")
            == if drives == [] then NoDrives else if |drives| == 1 then At(serial, 0) else Ambiguous
  {
    PartsOfDriveId(serial, "");
    assert serial + "-" + "" == serial + "-";
    var i := Find(serial, '-', 0);
    assert i == |serial| && serial[..|serial|] == serial;
  }

  /** The id shown for an entry leads back to that entry exactly when the entry is findable. */
  lemma ShownIdLeadsBackExactly(devs: seq<DeviceEntry>, i: nat, j: nat)
    requires IsEntry(devs, i, j) && DrivesOf(devs[i])[j].uuid.Some?
    ensures LeadsTo(devs, DriveId(devs[i], DrivesOf(devs[i])[j].uuid.value), i, j) <==> Findable(devs, i, j)
  {
    hide Find, Tabulate, LastWith, FirstUuid, MainId, SubId;
    var serial, uuid := OrEmpty(devs[i].serialNumber), DrivesOf(devs[i])[j].uuid.value;
    var id := DriveId(devs[i], uuid);
    PartsOfDriveId(serial, uuid);
    TableHoldsLast(devs, MainId(id));
    var infos := InfoOf(devs[i]).drives;
    FirstUuidIs(infos, j);
    assert infos[j].uuid == uuid;
    assert forall k :: 0 <= k < j ==> infos[k].uuid == OrEmpty(DrivesOf(devs[i])[k].uuid);
  }

  /**
   An id that leads to an entry is answered with that entry's fields; a name is lost only where it is empty among
   several drives.
   */
  lemma LookupsAnswerFromEntry(devs: seq<DeviceEntry>, driveId: string, i: nat, j: nat)
    requires LeadsTo(devs, driveId, i, j)
    ensures IsEntry(devs, i, j)
    ensures var t, e := Tabulate(map[], devs), DrivesOf(devs[i])[j]; var p := Locate(t, driveId);
            && t[p.serial].drives[p.k].mounted == (e.isMounted == Some(true))
            && t[MainId(driveId)].number == (if devs[i].deviceNum.Some? then devs[i].deviceNum.value else 0)
            && (NameAt(t, p) == OrEmpty(e.driveName)
                <==> |DrivesOf(devs[i])| == 1 || OrEmpty(e.driveName) != "")
  {
    TableHoldsLast(devs, MainId(driveId));
  }

  /** Two ids shown for findable entries differ unless the entries are the same. */
  lemma ShownIdsDiffer(devs: seq<DeviceEntry>, i: nat, j: nat, i': nat, j': nat)
    requires IsEntry(devs, i, j) && DrivesOf(devs[i])[j].uuid.Some? && Findable(devs, i, j)
    requires IsEntry(devs, i', j') && DrivesOf(devs[i'])[j'].uuid.Some? && Findable(devs, i', j')
    requires DriveId(devs[i], DrivesOf(devs[i])[j].uuid.value) == DriveId(devs[i'], DrivesOf(devs[i'])[j'].uuid.value)
    ensures i == i' && j == j'
  {
    ShownIdLeadsBackExactly(devs, i, j);
    ShownIdLeadsBackExactly(devs, i', j');
  }

  /** What a healthy reply looks like. */
  predicate Healthy(devs: seq<DeviceEntry>) {
    && (forall i :: 0 <= i < |devs| ==> devs[i].serialNumber.Some? && '-' !in devs[i].serialNumber.value)
    && (forall i, k :: 0 <= i < k < |devs| ==> devs[i].serialNumber != devs[k].serialNumber)
    && (forall i, j :: 0 <= i < |devs| && 0 <= j < |DrivesOf(devs[i])| ==>
          OrEmpty(DrivesOf(devs[i])[j].uuid) != "" && OrEmpty(DrivesOf(devs[i])[j].driveName) != "")
    && (forall i, j, k :: 0 <= i < |devs| && 0 <= j < k < |DrivesOf(devs[i])| ==>
          DrivesOf(devs[i])[j].uuid != DrivesOf(devs[i])[k].uuid)
  }

  /**
   After a healthy reply every drive shown has an id, and asking about that id succeeds and gives
   the name shown beside it.
   */
  lemma HealthyReplyIsAnswered(reply: Reply, s: Shown)
    requires Healthy(Devices(reply))
    requires ListingOf(reply).Usb? && s in ListingOf(reply).drives
    ensures s.driveId.Some? && s.driveName.Some?
    ensures var t := Tabulate(map[], Devices(reply)); var p := Locate(t, s.driveId.value);
            p.At? && NameAt(t, p) == s.driveName.value
  {
    var devs := Devices(reply);
    var i, j := ShownIsAnEntry(devs, s);
    ShownIdLeadsBackExactly(devs, i, j);
    LookupsAnswerFromEntry(devs, s.driveId.value, i, j);
  }

  /**
   A dash inside a serial number makes the shown id lead nowhere, and two devices with one serial number make it lead
   to the other.
   */
  lemma UnfindableEntries()
    ensures var d := DeviceEntry(Some("A-1"), None, Some([DriveEntry(Some("sda1"), Some("u"), None)]));
            Locate(Tabulate(map[], [d]), DriveId(d, "u")) == NoDevice
    ensures var d := DeviceEntry(Some("A"), None, Some([DriveEntry(Some("sda1"), Some("u"), None)]));
            var e := DeviceEntry(Some("A"), None, Some([DriveEntry(Some("sdb1"), Some("u"), None)]));
            var t := Tabulate(map[], [d, e]);
            NameAt(t, Locate(t, DriveId(d, "u"))) == "sdb1"
  {
    var d0 := DeviceEntry(Some("A-1"), None, Some([DriveEntry(Some("sda1"), Some("u"), None)]));
    PartsOfDriveId("A-1", "u");
    TableHoldsLast([d0], MainId(DriveId(d0, "u")));
    assert OrEmpty(d0.serialNumber)[1] == '-';
    var d := DeviceEntry(Some("A"), None, Some([DriveEntry(Some("sda1"), Some("u"), None)]));
    var e := DeviceEntry(Some("A"), None, Some([DriveEntry(Some("sdb1"), Some("u"), None)]));
    PartsOfDriveId("A", "u");
    TableHoldsLast([d, e], "A");
    assert [d, e][1].serialNumber == Some("A");
    assert DriveId(d, "u") == "A" + "-" + "u";
    assert SubId(DriveId(d, "u")) == "u";
    assert InfoOf(e).drives[0].uuid == "u";
  }
}
