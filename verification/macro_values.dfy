/**
 * What the host, interface, user and inventory macros of CMacrosResolver
 * (ui/include/classes/macros/CMacrosResolver.php) resolve to, once the rows
 * the resolver reads from the database are given as values.
 */
module MacroValues {
  import opened Wrappers
  import opened Strings

  // ---------------------------------------------------------------------
  // {USER.*}

  /** The fields of the logged-in user that the user macros read. */
  datatype User = User(username: string, name: string, surname: string)

  /** The non-empty strings of `xs`, in order. */
  function NonEmpty(xs: seq<string>): seq<string>
  {
    if xs == [] then []
    else NonEmpty(xs[..|xs|-1]) + (if xs[|xs|-1] != [] then [xs[|xs|-1]] else [])
  }

  /** {USER.FULLNAME}: the non-empty name parts and the username in parentheses, joined by spaces. */
  function FullNameOf(u: User): string
  {
    var parts := NonEmpty([u.name, u.surname]);
    if parts == [] then u.username else Join(parts + ["(" + u.username + ")"], " ")
  }

  /** The {USER.FULLNAME} branch: the name fields are collected in a loop, then imploded. */
  method FullName(u: User) returns (r: string)
    ensures r == FullNameOf(u)
  {
    var fields := [u.name, u.surname];
    var parts: seq<string> := [];
    var i := 0;
    while i < |fields|
      invariant 0 <= i <= |fields|
      invariant parts == NonEmpty(fields[..i])
    {
      assert fields[..i + 1][..i] == fields[..i];
      if fields[i] != [] {
        parts := parts + [fields[i]];
      }
      i := i + 1;
    }
    assert fields[..i] == fields;
    if parts != [] {
      r := Join(parts + ["(" + u.username + ")"], " ");
    } else {
      r := u.username;
    }
  }

  /** The four shapes of a full name. */
  lemma FullNameCases(u: User)
    ensures u.name == [] && u.surname == [] ==> FullNameOf(u) == u.username
    ensures u.name != [] && u.surname == [] ==> FullNameOf(u) == u.name + " (" + u.username + ")"
    ensures u.name == [] && u.surname != [] ==> FullNameOf(u) == u.surname + " (" + u.username + ")"
    ensures u.name != [] && u.surname != [] ==> FullNameOf(u) == u.name + " " + u.surname + " (" + u.username + ")"
  {
    var xs := [u.name, u.surname];
    var tail := "(" + u.username + ")";
    assert xs[..1] == [u.name] && [u.name][..0] == [];
    assert NonEmpty(xs) == NonEmpty([u.name]) + (if u.surname != [] then [u.surname] else []);
    assert NonEmpty([u.name]) == (if u.name != [] then [u.name] else []);
    assert " " + tail == " (" + u.username + ")";
    if u.name != [] && u.surname != [] {
      assert NonEmpty(xs) + [tail] == [u.name, u.surname, tail];
      assert [u.name, u.surname, tail][1..] == [u.surname, tail] && [u.surname, tail][1..] == [tail];
      assert NonEmpty(xs) + [tail] == [u.name, u.surname, tail];
      assert Join([u.surname, tail], " ") == u.surname + " " + tail;
      assert Join([u.name, u.surname, tail], " ") == u.name + " " + (u.surname + " " + tail);
      assert u.name + " " + (u.surname + " " + tail) == u.name + " " + u.surname + (" " + tail);
    } else if u.name != [] {
      assert Join([u.name, tail], " ") == u.name + " " + tail;
    } else if u.surname != [] {
      assert Join([u.surname, tail], " ") == u.surname + " " + tail;
    }
  }

  /** The value of a {USER.*} macro; None for a macro that is not one of them, which keeps its value. */
  function UserMacroValue(macro: string, u: User): (r: Option<string>)
    ensures r.Some? <==> macro in ["{USER.ALIAS}", "{USER.USERNAME}", "{USER.FULLNAME}", "{USER.NAME}", "{USER.SURNAME}"]
    ensures macro == "{USER.ALIAS}" || macro == "{USER.USERNAME}" ==> r == Some(u.username)
  {
    if macro == "{USER.ALIAS}" || macro == "{USER.USERNAME}" then Some(u.username)
    else if macro == "{USER.FULLNAME}" then Some(FullNameOf(u))
    else if macro == "{USER.NAME}" then Some(u.name)
    else if macro == "{USER.SURNAME}" then Some(u.surname)
    else None
  }

  // ---------------------------------------------------------------------
  // Interfaces

  /**
   * A row of the interface table: the host it belongs to, its id, its
   * addresses, whether the IP address is used, its type and whether it is
   * the host's main interface of that type.
   */
  datatype Interface = Interface(hostid: string, interfaceid: nat, ip: string, dns: string, useip: bool,
                                 itype: int, main: bool)

  /** {HOST.CONN}: the address the interface is set to use. */
  function Conn(i: Interface): string
  {
    if i.useip then i.ip else i.dns
  }

  /** The value of an interface macro; None for any other macro, which keeps its value. */
  function InterfaceMacroValue(macro: string, i: Interface): (r: Option<string>)
    ensures r.Some? <==> macro in ["{IPADDRESS}", "{HOST.IP}", "{HOST.DNS}", "{HOST.CONN}"]
  {
    if macro == "{IPADDRESS}" || macro == "{HOST.IP}" then Some(i.ip)
    else if macro == "{HOST.DNS}" then Some(i.dns)
    else if macro == "{HOST.CONN}" then Some(Conn(i))
    else None
  }

  /** {HOST.CONN} is {HOST.IP} on an interface that uses its IP address, and {HOST.DNS} on any other. */
  lemma ConnIsIpOrDns(i: Interface)
    ensures i.useip ==> InterfaceMacroValue("{HOST.CONN}", i) == InterfaceMacroValue("{HOST.IP}", i)
    ensures !i.useip ==> InterfaceMacroValue("{HOST.CONN}", i) == InterfaceMacroValue("{HOST.DNS}", i)
    ensures InterfaceMacroValue("{IPADDRESS}", i) == InterfaceMacroValue("{HOST.IP}", i)
  {
  }

  /**
   * The pick per host after the interfaces `ifs` are visited in order: a
   * main interface becomes the host's pick when the host has none yet or
   * when its priority is strictly greater.
   */
  function Picked(ifs: seq<Interface>, prio: int -> int): map<string, Interface>
  {
    if ifs == [] then map[]
    else
      var m := Picked(ifs[..|ifs|-1], prio);
      var x := ifs[|ifs|-1];
      if x.main && (x.hostid !in m || prio(x.itype) > prio(m[x.hostid].itype)) then m[x.hostid := x] else m
  }

  /**
   * The interface loops of resolveTexts and resolveItemKeys: the primary
   * interface of highest priority for every host (`prio` is the
   * interfacePriorities table).
   */
  method PickByPriority(ifs: seq<Interface>, prio: int -> int) returns (picked: map<string, Interface>)
    ensures picked == Picked(ifs, prio)
  {
    picked := map[];
    var i := 0;
    while i < |ifs|
      invariant 0 <= i <= |ifs|
      invariant picked == Picked(ifs[..i], prio)
    {
      assert ifs[..i + 1][..i] == ifs[..i];
      var x := ifs[i];
      if x.main && (x.hostid !in picked || prio(x.itype) > prio(picked[x.hostid].itype)) {
        picked := picked[x.hostid := x];
      }
      i := i + 1;
    }
    assert ifs[..i] == ifs;
  }

  /** `ifs[j]` is a main interface of host `h` whose priority no main interface of `h` exceeds and every earlier one falls short of. */
  predicate FirstTop(ifs: seq<Interface>, prio: int -> int, h: string, j: int)
  {
    && 0 <= j < |ifs| && ifs[j].main && ifs[j].hostid == h
    && (forall k :: 0 <= k < |ifs| && ifs[k].main && ifs[k].hostid == h ==> prio(ifs[k].itype) <= prio(ifs[j].itype))
    && (forall k :: 0 <= k < j && ifs[k].main && ifs[k].hostid == h ==> prio(ifs[k].itype) < prio(ifs[j].itype))
  }

  /**
   * A host gets a pick exactly when it has a main interface, and the pick is
   * the first of its main interfaces with the highest priority, so a tie
   * keeps the one seen first.
   */
  lemma {:induction false} PickedIsFirstTop(ifs: seq<Interface>, prio: int -> int, h: string)
    ensures h in Picked(ifs, prio) <==> exists k :: 0 <= k < |ifs| && ifs[k].main && ifs[k].hostid == h
    ensures h in Picked(ifs, prio) ==> exists j :: FirstTop(ifs, prio, h, j) && Picked(ifs, prio)[h] == ifs[j]
  {
    if ifs != [] {
      var front := ifs[..|ifs|-1];
      var x := ifs[|ifs|-1];
      var m := Picked(front, prio);
      PickedIsFirstTop(front, prio, h);
      assert forall k :: 0 <= k < |front| ==> front[k] == ifs[k];
      if x.main && x.hostid == h && (h !in m || prio(x.itype) > prio(m[h].itype)) {
        assert FirstTop(ifs, prio, h, |ifs| - 1);
      } else if h in m {
        var j :| FirstTop(front, prio, h, j) && m[h] == front[j];
        assert FirstTop(ifs, prio, h, j);
      } else {
        assert h in Picked(ifs, prio) <==> exists k :: 0 <= k < |ifs| && ifs[k].main && ifs[k].hostid == h;
      }
    }
  }

  /** The priority the map-element loop has to beat: 0 before anything is picked. */
  function Floor(top: Option<Interface>, prio: int -> int): int
  {
    if top.Some? then prio(top.value.itype) else 0
  }

  /** The map-element pick after the host's interfaces `ifs` are visited in order. */
  function Top(ifs: seq<Interface>, prio: int -> int): Option<Interface>
  {
    if ifs == [] then None
    else
      var t := Top(ifs[..|ifs|-1], prio);
      var x := ifs[|ifs|-1];
      if x.main && prio(x.itype) > Floor(t, prio) then Some(x) else t
  }

  /**
   * The interface loop of resolveMacrosInMapElements for one host: the
   * running priority starts at 0 and a main interface is taken only when it
   * beats it strictly.
   */
  method TopPriorityInterface(ifs: seq<Interface>, prio: int -> int) returns (top: Option<Interface>)
    ensures top == Top(ifs, prio)
  {
    top := None;
    var tmpPriority := 0;
    var i := 0;
    while i < |ifs|
      invariant 0 <= i <= |ifs|
      invariant top == Top(ifs[..i], prio) && tmpPriority == Floor(top, prio)
    {
      assert ifs[..i + 1][..i] == ifs[..i];
      if ifs[i].main && prio(ifs[i].itype) > tmpPriority {
        tmpPriority := prio(ifs[i].itype);
        top := Some(ifs[i]);
      }
      i := i + 1;
    }
    assert ifs[..i] == ifs;
  }

  /** The map-element pick is never an interface of priority 0 or below, and there is one whenever a main interface has a positive priority. */
  lemma {:induction false} TopIsPositive(ifs: seq<Interface>, prio: int -> int)
    ensures Top(ifs, prio).Some? <==> exists k :: 0 <= k < |ifs| && ifs[k].main && prio(ifs[k].itype) > 0
    ensures Top(ifs, prio).Some? ==> prio(Top(ifs, prio).value.itype) > 0
  {
    if ifs != [] {
      var front := ifs[..|ifs|-1];
      TopIsPositive(front, prio);
      assert forall k :: 0 <= k < |front| ==> front[k] == ifs[k];
    }
  }

  /** `ifs[j]` is a main interface whose priority no main interface exceeds and every earlier one falls short of. */
  predicate FirstBest(ifs: seq<Interface>, prio: int -> int, j: int)
  {
    && 0 <= j < |ifs| && ifs[j].main
    && (forall k :: 0 <= k < |ifs| && ifs[k].main ==> prio(ifs[k].itype) <= prio(ifs[j].itype))
    && (forall k :: 0 <= k < j && ifs[k].main ==> prio(ifs[k].itype) < prio(ifs[j].itype))
  }

  /** The map-element pick is the first main interface of the highest priority. */
  lemma {:induction false} TopIsFirstBest(ifs: seq<Interface>, prio: int -> int)
    ensures Top(ifs, prio).Some? ==> exists j :: FirstBest(ifs, prio, j) && ifs[j] == Top(ifs, prio).value
  {
    if ifs != [] {
      var front := ifs[..|ifs|-1];
      var x := ifs[|ifs|-1];
      var t := Top(front, prio);
      TopIsFirstBest(front, prio);
      TopIsPositive(front, prio);
      assert forall k :: 0 <= k < |front| ==> front[k] == ifs[k];
      if x.main && prio(x.itype) > Floor(t, prio) {
        assert FirstBest(ifs, prio, |ifs| - 1);
      } else if t.Some? {
        var j :| FirstBest(front, prio, j) && front[j] == t.value;
        assert FirstBest(ifs, prio, j);
      }
    }
  }

  /** An item as the item-key resolver reads it: its interface (0 for none) and its host. */
  datatype ItemRow = ItemRow(interfaceid: nat, hostid: string, hostName: string, hostHost: string)

  /**
   * The interface an item key's macros read: the item's own interface when
   * it has one that was found, else the host's pick; none at all when the
   * key holds no interface macro.
   */
  function ItemInterface(interfaceMacros: bool, item: ItemRow, interfaces: map<nat, Interface>,
                         byPriority: map<string, Interface>): (r: Option<Interface>)
    ensures !interfaceMacros ==> r.None?
    ensures interfaceMacros && item.interfaceid != 0 && item.interfaceid in interfaces ==>
              r == Some(interfaces[item.interfaceid])
    ensures interfaceMacros && !(item.interfaceid != 0 && item.interfaceid in interfaces) ==>
              (r.Some? <==> item.hostid in byPriority) && (r.Some? ==> r.value == byPriority[item.hostid])
  {
    if !interfaceMacros then None
    else if item.interfaceid != 0 && item.interfaceid in interfaces then Some(interfaces[item.interfaceid])
    else if item.hostid in byPriority then Some(byPriority[item.hostid])
    else None
  }

  /**
   * The value a macro in an item key gets: the host macros first (when the
   * key holds any), then the interface macros (when an interface was
   * found); any other macro keeps the value it has.
   */
  function ItemKeyMacroValue(macro: string, hostMacros: bool, item: ItemRow, iface: Option<Interface>,
                             current: string): (r: string)
    ensures hostMacros && macro == "{HOST.NAME}" ==> r == item.hostName
    ensures hostMacros && (macro == "{HOST.HOST}" || macro == "{HOSTNAME}") ==> r == item.hostHost
    ensures !(hostMacros && macro in ["{HOST.NAME}", "{HOST.HOST}", "{HOSTNAME}"]) ==>
              r == if iface.Some? && InterfaceMacroValue(macro, iface.value).Some?
                   then InterfaceMacroValue(macro, iface.value).value else current
  {
    if hostMacros && macro == "{HOST.NAME}" then item.hostName
    else if hostMacros && (macro == "{HOST.HOST}" || macro == "{HOSTNAME}") then item.hostHost
    else if iface.Some? then
      match InterfaceMacroValue(macro, iface.value)
      case Some(v) => v
      case None => current
    else current
  }

  // ---------------------------------------------------------------------
  // Inventory

  /** The value of HOST_INVENTORY_DISABLED in a host's inventory mode. */
  const InventoryDisabled: int := -1

  /**
   * getSupportedHostInventoryMacrosMap: the inventory field each inventory
   * macro reads, None for a macro that is not in the table.
   */
  function InventoryMacros(key: string): Option<string>
  {
    match key
    case "{INVENTORY.ALIAS}" => Some("alias")
    case "{INVENTORY.ASSET.TAG}" => Some("asset_tag")
    case "{INVENTORY.CHASSIS}" => Some("chassis")
    case "{INVENTORY.CONTACT}" => Some("contact")
    case "{PROFILE.CONTACT}" => Some("contact")
    case "{INVENTORY.CONTRACT.NUMBER}" => Some("contract_number")
    case "{INVENTORY.DEPLOYMENT.STATUS}" => Some("deployment_status")
    case "{INVENTORY.HARDWARE}" => Some("hardware")
    case "{PROFILE.HARDWARE}" => Some("hardware")
    case "{INVENTORY.HARDWARE.FULL}" => Some("hardware_full")
    case "{INVENTORY.HOST.NETMASK}" => Some("host_netmask")
    case "{INVENTORY.HOST.NETWORKS}" => Some("host_networks")
    case "{INVENTORY.HOST.ROUTER}" => Some("host_router")
    case "{INVENTORY.HW.ARCH}" => Some("hw_arch")
    case "{INVENTORY.HW.DATE.DECOMM}" => Some("date_hw_decomm")
    case "{INVENTORY.HW.DATE.EXPIRY}" => Some("date_hw_expiry")
    case "{INVENTORY.HW.DATE.INSTALL}" => Some("date_hw_install")
    case "{INVENTORY.HW.DATE.PURCHASE}" => Some("date_hw_purchase")
    case "{INVENTORY.INSTALLER.NAME}" => Some("installer_name")
    case "{INVENTORY.LOCATION}" => Some("location")
    case "{PROFILE.LOCATION}" => Some("location")
    case "{INVENTORY.LOCATION.LAT}" => Some("location_lat")
    case "{INVENTORY.LOCATION.LON}" => Some("location_lon")
    case "{INVENTORY.MACADDRESS.A}" => Some("macaddress_a")
    case "{PROFILE.MACADDRESS}" => Some("macaddress_a")
    case "{INVENTORY.MACADDRESS.B}" => Some("macaddress_b")
    case "{INVENTORY.MODEL}" => Some("model")
    case "{INVENTORY.NAME}" => Some("name")
    case "{PROFILE.NAME}" => Some("name")
    case "{INVENTORY.NOTES}" => Some("notes")
    case "{PROFILE.NOTES}" => Some("notes")
    case "{INVENTORY.OOB.IP}" => Some("oob_ip")
    case "{INVENTORY.OOB.NETMASK}" => Some("oob_netmask")
    case "{INVENTORY.OOB.ROUTER}" => Some("oob_router")
    case "{INVENTORY.OS}" => Some("os")
    case "{PROFILE.OS}" => Some("os")
    case "{INVENTORY.OS.FULL}" => Some("os_full")
    case "{INVENTORY.OS.SHORT}" => Some("os_short")
    case "{INVENTORY.POC.PRIMARY.CELL}" => Some("poc_1_cell")
    case "{INVENTORY.POC.PRIMARY.EMAIL}" => Some("poc_1_email")
    case "{INVENTORY.POC.PRIMARY.NAME}" => Some("poc_1_name")
    case "{INVENTORY.POC.PRIMARY.NOTES}" => Some("poc_1_notes")
    case "{INVENTORY.POC.PRIMARY.PHONE.A}" => Some("poc_1_phone_a")
    case "{INVENTORY.POC.PRIMARY.PHONE.B}" => Some("poc_1_phone_b")
    case "{INVENTORY.POC.PRIMARY.SCREEN}" => Some("poc_1_screen")
    case "{INVENTORY.POC.SECONDARY.CELL}" => Some("poc_2_cell")
    case "{INVENTORY.POC.SECONDARY.EMAIL}" => Some("poc_2_email")
    case "{INVENTORY.POC.SECONDARY.NAME}" => Some("poc_2_name")
    case "{INVENTORY.POC.SECONDARY.NOTES}" => Some("poc_2_notes")
    case "{INVENTORY.POC.SECONDARY.PHONE.A}" => Some("poc_2_phone_a")
    case "{INVENTORY.POC.SECONDARY.PHONE.B}" => Some("poc_2_phone_b")
    case "{INVENTORY.POC.SECONDARY.SCREEN}" => Some("poc_2_screen")
    case "{INVENTORY.SERIALNO.A}" => Some("serialno_a")
    case "{PROFILE.SERIALNO}" => Some("serialno_a")
    case "{INVENTORY.SERIALNO.B}" => Some("serialno_b")
    case "{INVENTORY.SITE.ADDRESS.A}" => Some("site_address_a")
    case "{INVENTORY.SITE.ADDRESS.B}" => Some("site_address_b")
    case "{INVENTORY.SITE.ADDRESS.C}" => Some("site_address_c")
    case "{INVENTORY.SITE.CITY}" => Some("site_city")
    case "{INVENTORY.SITE.COUNTRY}" => Some("site_country")
    case "{INVENTORY.SITE.NOTES}" => Some("site_notes")
    case "{INVENTORY.SITE.RACK}" => Some("site_rack")
    case "{INVENTORY.SITE.STATE}" => Some("site_state")
    case "{INVENTORY.SITE.ZIP}" => Some("site_zip")
    case "{INVENTORY.SOFTWARE}" => Some("software")
    case "{PROFILE.SOFTWARE}" => Some("software")
    case "{INVENTORY.SOFTWARE.APP.A}" => Some("software_app_a")
    case "{INVENTORY.SOFTWARE.APP.B}" => Some("software_app_b")
    case "{INVENTORY.SOFTWARE.APP.C}" => Some("software_app_c")
    case "{INVENTORY.SOFTWARE.APP.D}" => Some("software_app_d")
    case "{INVENTORY.SOFTWARE.APP.E}" => Some("software_app_e")
    case "{INVENTORY.SOFTWARE.FULL}" => Some("software_full")
    case "{INVENTORY.TAG}" => Some("tag")
    case "{PROFILE.TAG}" => Some("tag")
    case "{INVENTORY.TYPE}" => Some("type")
    case "{PROFILE.DEVICETYPE}" => Some("type")
    case "{INVENTORY.TYPE.FULL}" => Some("type_full")
    case "{INVENTORY.URL.A}" => Some("url_a")
    case "{INVENTORY.URL.B}" => Some("url_b")
    case "{INVENTORY.URL.C}" => Some("url_c")
    case "{INVENTORY.VENDOR}" => Some("vendor")
    case _ => None
  }

  // ---------------------------------------------------------------------
  // Map elements of type host

  /** A host as the map-element resolver reads it, with its interface pick already made. */
  datatype MapHost = MapHost(hostid: string, host: string, name: string, description: string,
                             iface: Option<Interface>, inventoryMode: int, inventory: map<string, string>)

  /**
   * The value an extracted map-element macro (written without braces) gets
   * from the element's host: None leaves it without a value, which the label
   * rewrite turns into the unresolved sentinel. Inventory macros are looked
   * up in `InventoryMacros`; an inventory field the host lacks reads as PHP
   * null, i.e. the empty string.
   */
  function HostElementValue(macro: string, host: Option<MapHost>): (r: Option<string>)
    ensures host.None? ==> r.None?
    ensures host.Some? && macro in ["HOST.IP", "IPADDRESS", "HOST.DNS", "HOST.CONN"] ==>
              (r.Some? <==> host.value.iface.Some?)
    ensures host.Some? && macro == "HOST.CONN" && host.value.iface.Some? ==> r == Some(Conn(host.value.iface.value))
    ensures host.Some? && macro !in HostCases ==>
              (r.Some? <==> InventoryMacros("{" + macro + "}").Some? && host.value.inventoryMode != InventoryDisabled)
  {
    match host
    case None => None
    case Some(h) =>
      if macro == "HOSTNAME" || macro == "HOST.NAME" then Some(h.name)
      else if macro == "HOST.ID" then Some(h.hostid)
      else if macro == "HOST.HOST" then Some(h.host)
      else if macro == "HOST.DESCRIPTION" then Some(h.description)
      else if macro == "HOST.IP" || macro == "IPADDRESS" then (if h.iface.Some? then Some(h.iface.value.ip) else None)
      else if macro == "HOST.DNS" then (if h.iface.Some? then Some(h.iface.value.dns) else None)
      else if macro == "HOST.CONN" then (if h.iface.Some? then Some(Conn(h.iface.value)) else None)
      else if InventoryMacros("{" + macro + "}").Some? && h.inventoryMode != InventoryDisabled then
        var field := InventoryMacros("{" + macro + "}").value;
        Some(if field in h.inventory then h.inventory[field] else [])
      else None
  }

  /** The macros the map-element switch resolves from the host and its interface, before the inventory. */
  const HostCases: seq<string> := ["HOSTNAME", "HOST.NAME", "HOST.ID", "HOST.HOST", "HOST.DESCRIPTION",
                                   "HOST.IP", "IPADDRESS", "HOST.DNS", "HOST.CONN"]

  /**
   * A macro of the inventory table that the switch does not take first reads
   * its inventory field when the host keeps its inventory, or "" when the
   * host lacks that field, and has no value otherwise.
   */
  lemma InventoryFieldRead(macro: string, host: Option<MapHost>)
    requires InventoryMacros("{" + macro + "}").Some? && macro !in HostCases
    ensures var field := InventoryMacros("{" + macro + "}").value;
      HostElementValue(macro, host) ==
        if host.Some? && host.value.inventoryMode != InventoryDisabled then
          Some(if field in host.value.inventory then host.value.inventory[field] else "")
        else None
  {
  }

  /** Two inventory macros reading the same field resolve alike on every host. */
  lemma SameFieldSameValue(a: string, b: string, host: Option<MapHost>)
    requires InventoryMacros("{" + a + "}").Some? && a !in HostCases
    requires InventoryMacros("{" + a + "}") == InventoryMacros("{" + b + "}") && b !in HostCases
    ensures HostElementValue(a, host) == HostElementValue(b, host)
  {
    InventoryFieldRead(a, host);
    InventoryFieldRead(b, host);
  }

  /**
   * The deprecated `{PROFILE.CONTACT}` and `{INVENTORY.CONTACT}` both read
   * the host's `contact` field, or "" without one, and nothing when the
   * inventory is disabled or there is no host.
   */
  lemma ContactMacros(host: Option<MapHost>)
    ensures var v := if host.Some? && host.value.inventoryMode != InventoryDisabled then
        Some(if "contact" in host.value.inventory then host.value.inventory["contact"] else "")
      else None;
      HostElementValue("PROFILE.CONTACT", host) == v && HostElementValue("INVENTORY.CONTACT", host) == v
  {
    assert "{" + "PROFILE.CONTACT" + "}" == "{PROFILE.CONTACT}";
    assert InventoryMacros("{PROFILE.CONTACT}") == Some("contact");
    InventoryFieldRead("PROFILE.CONTACT", host);
    assert "{" + "INVENTORY.CONTACT" + "}" == "{INVENTORY.CONTACT}";
    assert InventoryMacros("{INVENTORY.CONTACT}") == Some("contact");
    InventoryFieldRead("INVENTORY.CONTACT", host);
  }
}
