/**
 * The map importer: cycle detection over map elements that show other maps,
 * removal of elements before the maps are first written, the split of the
 * imported maps into maps to create and maps to update, and the translation
 * of names in a map into database ids.
 *
 * The referencer, the image lookup and the map API are inputs: the referencer
 * and the images are lookup tables, and the ids the map API gives new maps
 * are a function of their position in the create call.
 */
module MapImporter {
  import opened Wrappers
  import opened Strings

  // ------------------------------------------------------------------ data

  /** SYSMAP_ELEMENT_TYPE_*; any other code is left alone by the importer. */
  datatype ElementType = HostElement | MapElement | TriggerElement | HostGroupElement | ImageElement | OtherElement(code: int)

  /** The `element` of an imported map element: the fields that name what it shows. */
  datatype ElementRef = ElementRef(name: string, host: string, description: string, expression: string)

  /** `icon_off`, `icon_on`, `icon_disabled`, `icon_maintenance`, in the order they are resolved. */
  datatype IconSlot = IconOff | IconOn | IconDisabled | IconMaintenance

  const IconSlots: seq<IconSlot> := [IconOff, IconOn, IconDisabled, IconMaintenance]

  /**
   * A map element. `icons` holds the image names of the non-empty icon fields,
   * `iconids` the `iconid_*` fields set from them.
   */
  datatype Selement = Selement(
    elementtype: ElementType,
    element: ElementRef,
    elementid: Option<nat>,
    icons: map<IconSlot, string>,
    iconids: map<IconSlot, nat>)

  /** A trigger of a link, named by description and expression. */
  datatype LinkTrigger = LinkTrigger(description: string, expression: string, triggerid: Option<nat>)

  /** A link between elements; `linktriggers` is `None` once the key is removed. */
  datatype Link = Link(caption: string, linktriggers: Option<seq<LinkTrigger>>)

  /** An imported map; `None` stands for an absent key, and `HasElements` treats `None` and an empty list alike. */
  datatype SysMap = SysMap(
    name: string,
    sysmapid: Option<nat>,
    iconmap: Option<string>,
    iconmapid: Option<nat>,
    background: Option<string>,
    backgroundid: Option<nat>,
    selements: Option<seq<Selement>>,
    links: Option<seq<Link>>)

  /** The id lookups of the referencer; an id of 0 or a missing name is a failed lookup. */
  datatype Referencer = Referencer(
    maps: map<string, nat>,
    groups: map<string, nat>,
    hosts: map<string, nat>,
    triggers: map<(string, string), nat>,
    iconMaps: map<string, nat>)

  /** The exceptions the importer throws. */
  datatype ImportError =
    | CircularReference(cycle: seq<string>)
    | MissingIconMap(iconmap: string, mapName: string)
    | MissingBackground(image: string, mapName: string)
    | MissingMap(name: string, mapName: string)
    | MissingGroup(name: string, mapName: string)
    | MissingHost(host: string, mapName: string)
    | MissingTrigger(description: string, mapName: string)
    | MissingIcon(image: string, mapName: string)

  /** The message of each exception. */
  function Message(e: ImportError): string
  {
    match e
    case CircularReference(cycle) => "Circular reference in maps: " + Join(cycle, " - ") + "."
    case MissingIconMap(i, m) => "Cannot find icon map \"" + i + "\" used in map \"" + m + "\"."
    case MissingBackground(i, m) => "Cannot find background image \"" + i + "\" used in map \"" + m + "\"."
    case MissingMap(n, m) => "Cannot find map \"" + n + "\" used in map \"" + m + "\"."
    case MissingGroup(n, m) => "Cannot find group \"" + n + "\" used in map \"" + m + "\"."
    case MissingHost(h, m) => "Cannot find host \"" + h + "\" used in map \"" + m + "\"."
    case MissingTrigger(d, m) => "Cannot find trigger \"" + d + "\" used in map \"" + m + "\"."
    case MissingIcon(i, m) => "Cannot find icon \"" + i + "\" used in map \"" + m + "\"."
  }

  /** A referencer lookup: the id, or 0 when the name is unknown. */
  function Lookup<K>(m: map<K, nat>, k: K): nat
  {
    if k in m then m[k] else 0
  }

  /** `!empty($map['selements'])`. */
  predicate HasElements(m: SysMap)
  {
    m.selements.Some? && m.selements.value != []
  }

  // ------------------------------------------------------------- hashing

  /** The maps keyed by name: names in order of first appearance, the last map of each name. */
  datatype Hash = Hash(order: seq<string>, maps: map<string, SysMap>)

  predicate ValidHash(h: Hash)
  {
    (forall i, j :: 0 <= i < j < |h.order| ==> h.order[i] != h.order[j]) &&
    (forall n :: n in h.order ==> n in h.maps) &&
    (forall n :: n in h.maps ==> n in h.order) &&
    (forall n :: n in h.maps ==> h.maps[n].name == n)
  }

  /** One map added to the hash: a new name goes to the end of the order, the map replaces any earlier one. */
  function Add(h: Hash, m: SysMap): (r: Hash)
    requires ValidHash(h)
    ensures ValidHash(r) && r.maps == h.maps[m.name := m]
  {
    if m.name in h.maps then Hash(h.order, h.maps[m.name := m])
    else
      var r := Hash(h.order + [m.name], h.maps[m.name := m]);
      assert forall n :: n in r.order ==> n in h.order || n == m.name;
      r
  }

  /** `zbx_toHash($maps, 'name')`, adding `list` to the hash `h`. */
  function ToHashFrom(list: seq<SysMap>, h: Hash): (r: Hash)
    requires ValidHash(h)
    ensures ValidHash(r)
    decreases |list|
  {
    if list == [] then h else ToHashFrom(list[1..], Add(h, list[0]))
  }

  /** Each name in the list maps to the last map of that name. */
  lemma {:induction false} ToHashFromLastWins(list: seq<SysMap>, h: Hash)
    requires ValidHash(h)
    ensures var r := ToHashFrom(list, h);
      forall k :: 0 <= k < |list| && LastOfName(list, k) ==> list[k].name in r.maps && r.maps[list[k].name] == list[k]
    decreases |list|
  {
    if list != [] {
      var h' := Add(h, list[0]);
      ToHashFromLastWins(list[1..], h');
      var r := ToHashFrom(list, h);
      assert r == ToHashFrom(list[1..], h');
      forall k | 0 <= k < |list| && LastOfName(list, k)
        ensures list[k].name in r.maps && r.maps[list[k].name] == list[k]
      {
        if k > 0 {
          assert list[1..][k - 1] == list[k];
          assert LastOfName(list[1..], k - 1);
        } else {
          ToHashFromKeeps(list[1..], h', list[0].name);
        }
      }
    }
  }

  /** A name that no map of the list has keeps its map. */
  lemma {:induction false} ToHashFromKeeps(list: seq<SysMap>, h: Hash, n: string)
    requires ValidHash(h) && n in h.maps
    requires forall k :: 0 <= k < |list| ==> list[k].name != n
    ensures n in ToHashFrom(list, h).maps && ToHashFrom(list, h).maps[n] == h.maps[n]
    decreases |list|
  {
    if list != [] {
      assert forall k :: 0 <= k < |list| - 1 ==> list[1..][k] == list[k + 1];
      ToHashFromKeeps(list[1..], Add(h, list[0]), n);
    }
  }

  /** No later map in the list has the name of the `k`-th one. */
  predicate LastOfName(list: seq<SysMap>, k: nat)
    requires k < |list|
  {
    forall j :: k < j < |list| ==> list[j].name != list[k].name
  }

  function ToHash(list: seq<SysMap>): (r: Hash)
    ensures ValidHash(r)
  {
    ToHashFrom(list, Hash([], map[]))
  }

  // ---------------------------------------------------- circular references

  function Names(checked: seq<string>): set<string>
  {
    set x | x in checked
  }

  /** Position of the first occurrence of `x` in `xs` (`array_search`). */
  function IndexIn(xs: seq<string>, x: string): (i: nat)
    requires x in xs
    ensures i < |xs| && xs[i] == x && x !in xs[..i]
  {
    if xs[0] == x then 0
    else
      var i := IndexIn(xs[1..], x);
      assert xs[..i + 1] == [xs[0]] + xs[1..][..i];
      i + 1
  }

  /** The names not yet checked: what every recursive search step uses up. */
  function Unchecked(maps: map<string, SysMap>, checked: seq<string>): nat
  {
    |maps.Keys - Names(checked)|
  }

  lemma UncheckedShrinks(maps: map<string, SysMap>, checked: seq<string>, name: string)
    requires name in maps && name !in checked
    ensures Unchecked(maps, checked + [name]) < Unchecked(maps, checked)
  {
    assert Names(checked + [name]) == Names(checked) + {name};
    assert maps.Keys - Names(checked + [name]) == (maps.Keys - Names(checked)) - {name};
  }

  /** A list of map names that starts and ends with the same map, as in "m1 - m2 - m3 - m1". */
  predicate Loop(names: seq<string>)
  {
    |names| >= 2 && names[0] == names[|names| - 1]
  }

  /**
   * checkCircularRecursive as written: a map element whose map is already in
   * `checked` closes a cycle; otherwise only the FIRST element of that map is
   * followed.
   */
  function CheckCircularRecursive(element: Selement, maps: map<string, SysMap>, checked: seq<string>): (r: Option<seq<string>>)
    ensures element.elementtype != MapElement ==> r.None?
    ensures r.Some? ==> Loop(r.value)
    decreases Unchecked(maps, checked)
  {
    if element.elementtype != MapElement then None
    else
      var name := element.element.name;
      if name in checked then Some(checked[IndexIn(checked, name)..] + [name])
      else if name in maps && HasElements(maps[name]) then
        UncheckedShrinks(maps, checked, name);
        CheckCircularRecursive(maps[name].selements.value[0], maps, checked + [name])
      else None
  }

  /** The search with every element of a referenced map followed, as its comment intends. */
  function CheckCircularAll(element: Selement, maps: map<string, SysMap>, checked: seq<string>): (r: Option<seq<string>>)
    ensures element.elementtype != MapElement ==> r.None?
    ensures r.Some? ==> Loop(r.value)
    decreases Unchecked(maps, checked), 0, 0
  {
    if element.elementtype != MapElement then None
    else
      var name := element.element.name;
      if name in checked then Some(checked[IndexIn(checked, name)..] + [name])
      else if name in maps && HasElements(maps[name]) then
        UncheckedShrinks(maps, checked, name);
        CheckEach(maps[name].selements.value, maps, checked + [name])
      else None
  }

  /** The first cycle found through the elements `ss`, in order. */
  function CheckEach(ss: seq<Selement>, maps: map<string, SysMap>, checked: seq<string>): (r: Option<seq<string>>)
    ensures r.Some? ==> Loop(r.value)
    decreases Unchecked(maps, checked), 1, |ss|
  {
    if ss == [] then None
    else
      var r := CheckCircularAll(ss[0], maps, checked);
      if r.Some? then r else CheckEach(ss[1..], maps, checked)
  }

  /** The map `a` has an element that shows the map `b`. */
  predicate ShowsMap(maps: map<string, SysMap>, a: string, b: string)
  {
    a in maps && maps[a].selements.Some? &&
    exists k :: 0 <= k < |maps[a].selements.value| && IsMapElement(maps[a].selements.value[k], b)
  }

  predicate IsMapElement(s: Selement, b: string)
  {
    s.elementtype == MapElement && s.element.name == b
  }

  /** Each name in `c` shows the next one. */
  predicate Chain(maps: map<string, SysMap>, c: seq<string>)
  {
    forall j :: 0 <= j < |c| - 1 ==> ShowsMap(maps, c[j], c[j + 1])
  }

  /** A cycle of maps: a chain of at least one step that ends where it starts. */
  predicate Cycle(maps: map<string, SysMap>, c: seq<string>)
  {
    |c| >= 2 && c[0] == c[|c| - 1] && Chain(maps, c)
  }

  /** The search starts from an element of the last checked map, along a chain of checked maps. */
  predicate SearchState(element: Selement, maps: map<string, SysMap>, checked: seq<string>)
  {
    checked != [] && Chain(maps, checked) &&
    (element.elementtype == MapElement ==> ShowsMap(maps, checked[|checked| - 1], element.element.name))
  }

  lemma ChainSuffix(maps: map<string, SysMap>, checked: seq<string>, i: nat, name: string)
    requires i < |checked| && Chain(maps, checked) && ShowsMap(maps, checked[|checked| - 1], name)
    ensures Chain(maps, checked[i..] + [name])
  {
    var c := checked[i..] + [name];
    forall j | 0 <= j < |c| - 1
      ensures ShowsMap(maps, c[j], c[j + 1])
    {
      assert c[j] == checked[i + j];
      if j + 1 < |c| - 1 {
        assert c[j + 1] == checked[i + j + 1];
      }
    }
  }

  lemma ChainExtend(maps: map<string, SysMap>, checked: seq<string>, name: string)
    requires checked != [] && Chain(maps, checked) && ShowsMap(maps, checked[|checked| - 1], name)
    ensures Chain(maps, checked + [name])
  {
    ChainSuffix(maps, checked, 0, name);
    assert checked[0..] == checked;
  }

  /** Whatever the search as written reports is a real cycle of maps. */
  lemma {:induction false} CheckCircularRecursiveSound(element: Selement, maps: map<string, SysMap>, checked: seq<string>)
    requires SearchState(element, maps, checked)
    ensures var r := CheckCircularRecursive(element, maps, checked);
      r.Some? ==> Cycle(maps, r.value)
    decreases Unchecked(maps, checked)
  {
    if element.elementtype == MapElement {
      var name := element.element.name;
      if name in checked {
        var i := IndexIn(checked, name);
        ChainSuffix(maps, checked, i, name);
      } else if name in maps && HasElements(maps[name]) {
        UncheckedShrinks(maps, checked, name);
        ChainExtend(maps, checked, name);
        var next := maps[name].selements.value[0];
        if next.elementtype == MapElement {
          assert IsMapElement(next, next.element.name);
        }
        CheckCircularRecursiveSound(next, maps, checked + [name]);
      }
    }
  }

  /** Whatever the corrected search reports is a real cycle of maps. */
  lemma {:induction false} CheckCircularAllSound(element: Selement, maps: map<string, SysMap>, checked: seq<string>)
    requires SearchState(element, maps, checked)
    ensures var r := CheckCircularAll(element, maps, checked);
      r.Some? ==> Cycle(maps, r.value)
    decreases Unchecked(maps, checked), 0, 0
  {
    if element.elementtype == MapElement {
      var name := element.element.name;
      if name in checked {
        var i := IndexIn(checked, name);
        ChainSuffix(maps, checked, i, name);
      } else if name in maps && HasElements(maps[name]) {
        UncheckedShrinks(maps, checked, name);
        ChainExtend(maps, checked, name);
        CheckEachSound(maps[name].selements.value, 0, maps, checked + [name]);
      }
    }
  }

  lemma {:induction false} CheckEachSound(ss: seq<Selement>, from: nat, maps: map<string, SysMap>, checked: seq<string>)
    requires checked != [] && Chain(maps, checked) && from <= |ss|
    requires var last := checked[|checked| - 1];
      last in maps && maps[last].selements == Some(ss)
    ensures var r := CheckEach(ss[from..], maps, checked);
      r.Some? ==> Cycle(maps, r.value)
    decreases Unchecked(maps, checked), 1, |ss| - from
  {
    if from < |ss| {
      var s := ss[from];
      assert ss[from..][0] == s && ss[from..][1..] == ss[from + 1..];
      if s.elementtype == MapElement {
        assert IsMapElement(ss[from], s.element.name);
      }
      CheckCircularAllSound(s, maps, checked);
      CheckEachSound(ss, from + 1, maps, checked);
    }
  }

  /** If one element leads to a cycle, the scan of all the elements does. */
  lemma {:induction false} CheckEachFinds(ss: seq<Selement>, k: nat, maps: map<string, SysMap>, checked: seq<string>)
    requires k < |ss| && CheckCircularAll(ss[k], maps, checked).Some?
    ensures CheckEach(ss, maps, checked).Some?
    decreases k
  {
    if k > 0 && CheckCircularAll(ss[0], maps, checked).None? {
      assert ss[1..][k - 1] == ss[k];
      CheckEachFinds(ss[1..], k - 1, maps, checked);
    }
  }

  /**
   * The corrected search is complete: from an element showing the first map of
   * a chain that leads back into `checked`, it reports a cycle.
   */
  lemma {:induction false} CheckCircularAllComplete(element: Selement, maps: map<string, SysMap>, checked: seq<string>, path: seq<string>)
    requires |path| >= 1 && IsMapElement(element, path[0])
    requires Chain(maps, path) && path[|path| - 1] in checked
    ensures CheckCircularAll(element, maps, checked).Some?
    decreases |path|
  {
    var name := path[0];
    if name !in checked {
      assert |path| >= 2;
      assert ShowsMap(maps, path[0], path[1]);
      var ss := maps[name].selements.value;
      var k :| 0 <= k < |ss| && IsMapElement(ss[k], path[1]);
      UncheckedShrinks(maps, checked, name);
      var rest := path[1..];
      assert Chain(maps, rest) by {
        forall j | 0 <= j < |rest| - 1
          ensures ShowsMap(maps, rest[j], rest[j + 1])
        {
          assert rest[j] == path[j + 1] && rest[j + 1] == path[j + 2];
        }
      }
      assert rest[|rest| - 1] == path[|path| - 1];
      CheckCircularAllComplete(ss[k], maps, checked + [name], rest);
      CheckEachFinds(ss, k, maps, checked + [name]);
    }
  }

  // -------------------------------------------- checkCircularMapReferences

  /** The first cycle found through the elements `ss` of map `owner`, with the search as written. */
  function FirstCycleInAsWritten(ss: seq<Selement>, maps: map<string, SysMap>, owner: string): (r: Option<seq<string>>)
    ensures r.Some? ==> Loop(r.value)
    ensures r.None? <==> forall k :: 0 <= k < |ss| ==> CheckCircularRecursive(ss[k], maps, [owner]).None?
    decreases |ss|
  {
    if ss == [] then None
    else
      var r := CheckCircularRecursive(ss[0], maps, [owner]);
      if r.Some? then r else FirstCycleInAsWritten(ss[1..], maps, owner)
  }

  /** checkCircularMapReferences as written: the first cycle, map by map and element by element. */
  function FirstCycleAsWritten(order: seq<string>, maps: map<string, SysMap>): (r: Option<seq<string>>)
    ensures r.Some? ==> Loop(r.value)
    ensures r.None? <==> forall i :: 0 <= i < |order| && order[i] in maps && HasElements(maps[order[i]]) ==>
      FirstCycleInAsWritten(maps[order[i]].selements.value, maps, order[i]).None?
    decreases |order|
  {
    if order == [] then None
    else
      var name := order[0];
      var r := if name in maps && HasElements(maps[name]) then FirstCycleInAsWritten(maps[name].selements.value, maps, name) else None;
      if r.Some? then r else FirstCycleAsWritten(order[1..], maps)
  }

  /** The first cycle found through the elements `ss` of map `owner`, with the corrected search. */
  function FirstCycleIn(ss: seq<Selement>, maps: map<string, SysMap>, owner: string): (r: Option<seq<string>>)
    ensures r.Some? ==> Loop(r.value)
    ensures r.None? <==> forall k :: 0 <= k < |ss| ==> CheckCircularAll(ss[k], maps, [owner]).None?
    decreases |ss|
  {
    if ss == [] then None
    else
      var r := CheckCircularAll(ss[0], maps, [owner]);
      if r.Some? then r else FirstCycleIn(ss[1..], maps, owner)
  }

  /** checkCircularMapReferences with the corrected search. */
  function FirstCycle(order: seq<string>, maps: map<string, SysMap>): (r: Option<seq<string>>)
    ensures r.Some? ==> Loop(r.value)
    ensures r.None? <==> forall i :: 0 <= i < |order| && order[i] in maps && HasElements(maps[order[i]]) ==>
      FirstCycleIn(maps[order[i]].selements.value, maps, order[i]).None?
    decreases |order|
  {
    if order == [] then None
    else
      var name := order[0];
      var r := if name in maps && HasElements(maps[name]) then FirstCycleIn(maps[name].selements.value, maps, name) else None;
      if r.Some? then r else FirstCycle(order[1..], maps)
  }

  /** checkCircularMapReferences; the exception is the returned error. */
  method CheckCircularMapReferences(order: seq<string>, maps: map<string, SysMap>) returns (err: Option<ImportError>)
    ensures err == if FirstCycle(order, maps).Some? then Some(CircularReference(FirstCycle(order, maps).value)) else None
  {
    for i := 0 to |order|
      invariant FirstCycle(order, maps) == FirstCycle(order[i..], maps)
    {
      assert order[i..][1..] == order[i + 1..];
      var name := order[i];
      if name in maps && HasElements(maps[name]) {
        var ss := maps[name].selements.value;
        for j := 0 to |ss|
          invariant FirstCycleIn(ss, maps, name) == FirstCycleIn(ss[j..], maps, name)
        {
          assert ss[j..][1..] == ss[j + 1..];
          var checked := [name];
          var circ := CheckCircularAll(ss[j], maps, checked);
          if circ.Some? {
            return Some(CircularReference(circ.value));
          }
        }
      }
    }
    return None;
  }

  lemma {:induction false} FirstCycleInFinds(ss: seq<Selement>, k: nat, maps: map<string, SysMap>, owner: string)
    requires k < |ss| && CheckCircularAll(ss[k], maps, [owner]).Some?
    ensures FirstCycleIn(ss, maps, owner).Some?
    decreases k
  {
    if k > 0 && CheckCircularAll(ss[0], maps, [owner]).None? {
      assert ss[1..][k - 1] == ss[k];
      FirstCycleInFinds(ss[1..], k - 1, maps, owner);
    }
  }

  lemma {:induction false} FirstCycleFinds(order: seq<string>, i: nat, maps: map<string, SysMap>)
    requires i < |order| && order[i] in maps && HasElements(maps[order[i]])
    requires FirstCycleIn(maps[order[i]].selements.value, maps, order[i]).Some?
    ensures FirstCycle(order, maps).Some?
    decreases i
  {
    if i > 0 {
      assert order[1..][i - 1] == order[i];
      FirstCycleFinds(order[1..], i - 1, maps);
    }
  }

  /** With the corrected search every cycle among the imported maps is reported. */
  lemma CycleReported(h: Hash, c: seq<string>)
    requires ValidHash(h) && Cycle(h.maps, c)
    ensures FirstCycle(h.order, h.maps).Some?
  {
    var owner := c[0];
    assert ShowsMap(h.maps, c[0], c[1]);
    var ss := h.maps[owner].selements.value;
    var k :| 0 <= k < |ss| && IsMapElement(ss[k], c[1]);
    var path := c[1..];
    assert Chain(h.maps, path) by {
      forall j | 0 <= j < |path| - 1
        ensures ShowsMap(h.maps, path[j], path[j + 1])
      {
        assert path[j] == c[j + 1] && path[j + 1] == c[j + 2];
      }
    }
    assert path[|path| - 1] == owner;
    CheckCircularAllComplete(ss[k], h.maps, [owner], path);
    FirstCycleInFinds(ss, k, h.maps, owner);
    var i :| 0 <= i < |h.order| && h.order[i] == owner;
    FirstCycleFinds(h.order, i, h.maps);
  }

  lemma {:induction false} FirstCycleInSound(ss: seq<Selement>, maps: map<string, SysMap>, owner: string)
    requires owner in maps && maps[owner].selements.Some?
    requires forall k :: 0 <= k < |ss| ==> ss[k] in maps[owner].selements.value
    ensures var r := FirstCycleIn(ss, maps, owner);
      r.Some? ==> Cycle(maps, r.value)
    decreases |ss|
  {
    if ss != [] {
      var s := ss[0];
      if s.elementtype == MapElement {
        var all := maps[owner].selements.value;
        var k :| 0 <= k < |all| && all[k] == s;
        assert IsMapElement(all[k], s.element.name);
      }
      CheckCircularAllSound(s, maps, [owner]);
      assert forall k :: 0 <= k < |ss| - 1 ==> ss[1..][k] == ss[k + 1];
      FirstCycleInSound(ss[1..], maps, owner);
    }
  }

  /** What the corrected check reports is always a real cycle of maps. */
  lemma {:induction false} FirstCycleSound(order: seq<string>, maps: map<string, SysMap>)
    ensures var r := FirstCycle(order, maps);
      r.Some? ==> Cycle(maps, r.value)
    decreases |order|
  {
    if order != [] {
      var name := order[0];
      if name in maps && HasElements(maps[name]) {
        FirstCycleInSound(maps[name].selements.value, maps, name);
      }
      FirstCycleSound(order[1..], maps);
    }
  }

  /**
   * The check as written misses a cycle between two maps whose first elements
   * are images: each map shows the other only through its second element.
   */
  lemma FirstElementOnly(a: Selement, b: Selement, img: Selement, maps: map<string, SysMap>)
    requires img.elementtype == ImageElement
    requires a == Selement(MapElement, ElementRef("A", "", "", ""), None, map[], map[])
    requires b == Selement(MapElement, ElementRef("B", "", "", ""), None, map[], map[])
    requires maps == map[
      "A" := SysMap("A", None, None, None, None, None, Some([img, b]), None),
      "B" := SysMap("B", None, None, None, None, None, Some([img, a]), None)]
    ensures Cycle(maps, ["A", "B", "A"])
    ensures FirstCycleAsWritten(["A", "B"], maps) == None
    ensures FirstCycle(["A", "B"], maps).Some?
  {
    assert IsMapElement(maps["A"].selements.value[1], "B");
    assert IsMapElement(maps["B"].selements.value[1], "A");
    assert ["A", "B", "A"][1] == "B";
    var ssA := maps["A"].selements.value;
    var ssB := maps["B"].selements.value;
    assert ssA[1..] == [b] && ssB[1..] == [a];
    assert CheckCircularRecursive(b, maps, ["A"]) == None by {
      assert "B" !in ["A"];
      assert maps["B"].selements.value[0] == img;
    }
    assert CheckCircularRecursive(a, maps, ["B"]) == None by {
      assert "A" !in ["B"];
      assert maps["A"].selements.value[0] == img;
    }
    assert FirstCycleInAsWritten(ssA[1..], maps, "A") == None;
    assert FirstCycleInAsWritten(ssA, maps, "A") == None;
    assert FirstCycleInAsWritten(ssB[1..], maps, "B") == None;
    assert FirstCycleInAsWritten(ssB, maps, "B") == None;
    assert ["A", "B"][1..] == ["B"];
    CycleReported(Hash(["A", "B"], maps), ["A", "B", "A"]);
  }

  // ------------------------------------------------- getMapsWithoutElements

  /** A map with its non-empty element list removed. */
  function WithoutElements(m: SysMap): (r: SysMap)
    ensures !HasElements(r)
    ensures HasElements(m) || r == m
    ensures r.name == m.name && r.sysmapid == m.sysmapid && r.iconmap == m.iconmap && r.iconmapid == m.iconmapid
    ensures r.background == m.background && r.backgroundid == m.backgroundid && r.links == m.links
  {
    if HasElements(m) then m.(selements := None) else m
  }

  /** getMapsWithoutElements: every map of the hash, in order, loses its non-empty element list. */
  method GetMapsWithoutElements(h: Hash) returns (r: map<string, SysMap>)
    requires ValidHash(h)
    ensures r.Keys == h.maps.Keys
    ensures forall n :: n in r ==> r[n] == WithoutElements(h.maps[n])
  {
    r := h.maps;
    for i := 0 to |h.order|
      invariant r.Keys == h.maps.Keys
      invariant forall n :: n in r ==> r[n] == if n in h.order[..i] then WithoutElements(h.maps[n]) else h.maps[n]
    {
      var name := h.order[i];
      assert h.order[..i + 1] == h.order[..i] + [name];
      assert name !in h.order[..i];
      if HasElements(r[name]) {
        r := r[name := r[name].(selements := None)];
      }
    }
    assert h.order[..|h.order|] == h.order;
  }

  // ------------------------------------------------- create or update split

  /** Every name of `order` has a map in `m`. */
  predicate Covers(order: seq<string>, m: map<string, SysMap>)
  {
    forall k :: 0 <= k < |order| ==> order[k] in m
  }

  lemma CoversSlice(order: seq<string>, m: map<string, SysMap>, i: nat, j: nat)
    requires Covers(order, m) && i <= j <= |order|
    ensures Covers(order[i..], m) && Covers(order[..j], m)
  {
    forall k | 0 <= k < |order| - i
      ensures order[i..][k] in m
    {
      assert order[i..][k] == order[i + k];
    }
    forall k | 0 <= k < j
      ensures order[..j][k] in m
    {
      assert order[..j][k] == order[k];
    }
  }

  /** The maps (without elements) whose names the referencer does not know: the create list. */
  function CreateList(order: seq<string>, noElems: map<string, SysMap>, ref: Referencer): (r: seq<SysMap>)
    requires Covers(order, noElems)
    decreases |order|
  {
    if order == [] then []
    else
      var m := noElems[order[|order| - 1]];
      CreateList(order[..|order| - 1], noElems, ref) + (if Lookup(ref.maps, m.name) == 0 then [m] else [])
  }

  /** The maps (without elements) the referencer knows, each with its id set: the update list. */
  function UpdateList(order: seq<string>, noElems: map<string, SysMap>, ref: Referencer): (r: seq<SysMap>)
    requires Covers(order, noElems)
    decreases |order|
  {
    if order == [] then []
    else
      var m := noElems[order[|order| - 1]];
      var id := Lookup(ref.maps, m.name);
      UpdateList(order[..|order| - 1], noElems, ref) + (if id != 0 then [m.(sysmapid := Some(id))] else [])
  }

  /** The source maps after the ids of the known maps among `names` are recorded in them. */
  function RecordIds(maps: map<string, SysMap>, noElems: map<string, SysMap>, ref: Referencer, names: seq<string>): (r: map<string, SysMap>)
    requires Covers(names, noElems) && Covers(names, maps)
    ensures r.Keys == maps.Keys
    decreases |names|
  {
    if names == [] then maps
    else
      var last := names[|names| - 1];
      var prev := RecordIds(maps, noElems, ref, names[..|names| - 1]);
      var id := Lookup(ref.maps, noElems[last].name);
      if id != 0 then prev[last := prev[last].(sysmapid := Some(id))] else prev
  }

  /** The loop of `import` that sorts the maps into the create list and the update list. */
  method SplitMaps(order: seq<string>, maps: map<string, SysMap>, noElems: map<string, SysMap>, ref: Referencer)
    returns (toCreate: seq<SysMap>, toUpdate: seq<SysMap>, maps': map<string, SysMap>)
    requires Covers(order, noElems) && Covers(order, maps)
    ensures toCreate == CreateList(order, noElems, ref)
    ensures toUpdate == UpdateList(order, noElems, ref)
    ensures maps' == RecordIds(maps, noElems, ref, order)
  {
    toCreate, toUpdate, maps' := [], [], maps;
    for i := 0 to |order|
      invariant Covers(order[..i], noElems) && Covers(order[..i], maps)
      invariant toCreate == CreateList(order[..i], noElems, ref)
      invariant toUpdate == UpdateList(order[..i], noElems, ref)
      invariant maps' == RecordIds(maps, noElems, ref, order[..i])
    {
      CoversSlice(order, noElems, 0, i + 1);
      CoversSlice(order, maps, 0, i + 1);
      assert order[..i + 1][..i] == order[..i];
      var mapName := order[i];
      var m := noElems[mapName];
      var mapId := Lookup(ref.maps, m.name);
      if mapId != 0 {
        maps' := maps'[mapName := maps'[mapName].(sysmapid := Some(mapId))];
        toUpdate := toUpdate + [m.(sysmapid := Some(mapId))];
      } else {
        toCreate := toCreate + [m];
      }
    }
    assert order[..|order|] == order;
  }

  /** Recording the ids of distinct names sets, in each named map, the id the referencer knows. */
  lemma {:induction false} RecordIdsMeaning(maps: map<string, SysMap>, noElems: map<string, SysMap>, ref: Referencer, names: seq<string>)
    requires Covers(names, noElems) && Covers(names, maps)
    requires forall i, j :: 0 <= i < j < |names| ==> names[i] != names[j]
    ensures var r := RecordIds(maps, noElems, ref, names);
      forall k :: 0 <= k < |names| ==>
        var id := Lookup(ref.maps, noElems[names[k]].name);
        r[names[k]] == if id != 0 then maps[names[k]].(sysmapid := Some(id)) else maps[names[k]]
    ensures var r := RecordIds(maps, noElems, ref, names);
      forall n :: n in maps && (forall k :: 0 <= k < |names| ==> names[k] != n) ==> r[n] == maps[n]
    decreases |names|
  {
    if names != [] {
      var n := |names| - 1;
      var init := names[..n];
      var last := names[n];
      RecordIdsMeaning(maps, noElems, ref, init);
      var prev := RecordIds(maps, noElems, ref, init);
      var id := Lookup(ref.maps, noElems[last].name);
      var r := RecordIds(maps, noElems, ref, names);
      assert r == if id != 0 then prev[last := prev[last].(sysmapid := Some(id))] else prev;
      assert prev[last] == maps[last] by {
        forall k | 0 <= k < |init|
          ensures init[k] != last
        {
          assert init[k] == names[k];
        }
      }
      forall k | 0 <= k < |names|
        ensures var idk := Lookup(ref.maps, noElems[names[k]].name);
          r[names[k]] == if idk != 0 then maps[names[k]].(sysmapid := Some(idk)) else maps[names[k]]
      {
        if k < n {
          assert init[k] == names[k] && names[k] != last;
        }
      }
      forall m | m in maps && (forall k :: 0 <= k < |names| ==> names[k] != m)
        ensures r[m] == maps[m]
      {
        forall k | 0 <= k < |init|
          ensures init[k] != m
        {
          assert init[k] == names[k];
        }
        assert names[n] != m;
      }
    }
  }

  function NamesOf(ms: seq<SysMap>): seq<string>
  {
    seq(|ms|, k requires 0 <= k < |ms| => ms[k].name)
  }

  /** Every map lands in exactly one list: the names of the two lists together are the imported names. */
  lemma {:induction false} SplitPartition(order: seq<string>, noElems: map<string, SysMap>, ref: Referencer)
    requires Covers(order, noElems)
    requires forall n :: n in noElems ==> noElems[n].name == n
    ensures multiset(NamesOf(CreateList(order, noElems, ref))) + multiset(NamesOf(UpdateList(order, noElems, ref))) == multiset(order)
    decreases |order|
  {
    if order != [] {
      var init := order[..|order| - 1];
      CoversSlice(order, noElems, 0, |order| - 1);
      SplitPartition(init, noElems, ref);
      var m := noElems[order[|order| - 1]];
      assert m.name == order[|order| - 1];
      var c, u := CreateList(init, noElems, ref), UpdateList(init, noElems, ref);
      assert order == init + [m.name];
      if Lookup(ref.maps, m.name) == 0 {
        assert CreateList(order, noElems, ref) == c + [m];
        assert NamesOf(c + [m]) == NamesOf(c) + [m.name];
        assert UpdateList(order, noElems, ref) == u;
      } else {
        var m' := m.(sysmapid := Some(Lookup(ref.maps, m.name)));
        assert UpdateList(order, noElems, ref) == u + [m'];
        assert NamesOf(u + [m']) == NamesOf(u) + [m.name];
        assert CreateList(order, noElems, ref) == c;
      }
    }
  }

  /** The maps to create are exactly those whose name the referencer does not know. */
  lemma {:induction false} CreateListUnknown(order: seq<string>, noElems: map<string, SysMap>, ref: Referencer)
    requires Covers(order, noElems)
    ensures forall m :: m in CreateList(order, noElems, ref) ==> Lookup(ref.maps, m.name) == 0
    decreases |order|
  {
    if order != [] {
      CoversSlice(order, noElems, 0, |order| - 1);
      CreateListUnknown(order[..|order| - 1], noElems, ref);
    }
  }

  /** The maps to update carry the id the referencer knows for their name. */
  lemma {:induction false} UpdateListKnown(order: seq<string>, noElems: map<string, SysMap>, ref: Referencer)
    requires Covers(order, noElems)
    ensures forall m :: m in UpdateList(order, noElems, ref) ==> Lookup(ref.maps, m.name) != 0 && m.sysmapid == Some(Lookup(ref.maps, m.name))
    decreases |order|
  {
    if order != [] {
      CoversSlice(order, noElems, 0, |order| - 1);
      UpdateListKnown(order[..|order| - 1], noElems, ref);
    }
  }

  // ------------------------------------------------- resolveMapReferences

  /**
   * Each element of `xs` resolved in order; the first failure is the result.
   * Recursion on the last element, so that a loop over a prefix extends it.
   */
  function Traverse<A, B>(xs: seq<A>, f: A -> Result<B, ImportError>): Result<seq<B>, ImportError>
    decreases |xs|
  {
    if xs == [] then Success([])
    else
      match Traverse(xs[..|xs| - 1], f)
      case Failure(e) => Failure(e)
      case Success(vs) =>
        match f(xs[|xs| - 1])
        case Failure(e) => Failure(e)
        case Success(v) => Success(vs + [v])
  }

  /** A traversal succeeds exactly when every element resolves, and then holds the resolved elements. */
  lemma {:induction false} TraverseSuccess<A, B>(xs: seq<A>, f: A -> Result<B, ImportError>)
    ensures Traverse(xs, f).Success? <==> forall k :: 0 <= k < |xs| ==> f(xs[k]).Success?
    ensures Traverse(xs, f).Success? ==>
      |Traverse(xs, f).value| == |xs| && forall k :: 0 <= k < |xs| ==> Traverse(xs, f).value[k] == f(xs[k]).value
    decreases |xs|
  {
    if xs != [] {
      var init := xs[..|xs| - 1];
      TraverseSuccess(init, f);
      assert forall k :: 0 <= k < |init| ==> init[k] == xs[k];
    }
  }

  /** A failed traversal reports the error of the first element that does not resolve. */
  lemma {:induction false} TraverseFailure<A, B>(xs: seq<A>, f: A -> Result<B, ImportError>)
    requires Traverse(xs, f).Failure?
    ensures exists k :: (0 <= k < |xs| && f(xs[k]) == Failure(Traverse(xs, f).error) &&
                         forall j :: 0 <= j < k ==> f(xs[j]).Success?)
    decreases |xs|
  {
    var init := xs[..|xs| - 1];
    assert forall k :: 0 <= k < |init| ==> init[k] == xs[k];
    if Traverse(init, f).Failure? {
      TraverseFailure(init, f);
      var k :| 0 <= k < |init| && f(init[k]) == Failure(Traverse(init, f).error) && forall j :: 0 <= j < k ==> f(init[j]).Success?;
      assert f(xs[k]) == Failure(Traverse(xs, f).error);
    } else {
      TraverseSuccess(init, f);
      assert f(xs[|xs| - 1]) == Failure(Traverse(xs, f).error);
    }
  }

  /** A failure of a prefix is the failure of the whole traversal. */
  lemma {:induction false} TraversePrefixFailure<A, B>(xs: seq<A>, f: A -> Result<B, ImportError>, i: nat)
    requires i <= |xs| && Traverse(xs[..i], f).Failure?
    ensures Traverse(xs, f) == Traverse(xs[..i], f)
    decreases |xs| - i
  {
    if i < |xs| {
      assert xs[..i + 1][..i] == xs[..i];
      TraversePrefixFailure(xs, f, i + 1);
    } else {
      assert xs[..i] == xs;
    }
  }

  /** One more element of a successful prefix. */
  lemma TraverseStep<A, B>(xs: seq<A>, f: A -> Result<B, ImportError>, i: nat, vs: seq<B>)
    requires i < |xs| && Traverse(xs[..i], f) == Success(vs)
    ensures f(xs[i]).Success? ==> Traverse(xs[..i + 1], f) == Success(vs + [f(xs[i]).value])
    ensures f(xs[i]).Failure? ==> Traverse(xs, f) == Failure(f(xs[i]).error)
  {
    assert xs[..i + 1][..i] == xs[..i];
    if f(xs[i]).Failure? {
      TraversePrefixFailure(xs, f, i + 1);
    }
  }

  /** `getImageByIdent` by name: the image id, or `None` when there is no such image. */
  function ImageId(images: map<string, nat>, name: string): Option<nat>
  {
    if name in images then Some(images[name]) else None
  }

  /** The `switch` on the element type: the element's id from the referencer. */
  function ResolveElementId(s: Selement, ref: Referencer, mapName: string): Result<Selement, ImportError>
  {
    match s.elementtype
    case MapElement =>
      var id := Lookup(ref.maps, s.element.name);
      if id == 0 then Failure(MissingMap(s.element.name, mapName)) else Success(s.(elementid := Some(id)))
    case HostGroupElement =>
      var id := Lookup(ref.groups, s.element.name);
      if id == 0 then Failure(MissingGroup(s.element.name, mapName)) else Success(s.(elementid := Some(id)))
    case HostElement =>
      var id := Lookup(ref.hosts, s.element.host);
      if id == 0 then Failure(MissingHost(s.element.host, mapName)) else Success(s.(elementid := Some(id)))
    case TriggerElement =>
      var id := Lookup(ref.triggers, (s.element.description, s.element.expression));
      if id == 0 then Failure(MissingTrigger(s.element.description, mapName)) else Success(s.(elementid := Some(id)))
    case ImageElement => Success(s.(elementid := Some(0)))
    case OtherElement(_) => Success(s)
  }

  /** One icon field: a non-empty `icon_*` sets `iconid_*` to its image id. */
  function ResolveIcon(s: Selement, slot: IconSlot, images: map<string, nat>, mapName: string): Result<Selement, ImportError>
  {
    if slot !in s.icons then Success(s)
    else
      match ImageId(images, s.icons[slot])
      case None => Failure(MissingIcon(s.icons[slot], mapName))
      case Some(id) => Success(s.(iconids := s.iconids[slot := id]))
  }

  /** The icon fields of `slots`, in order. */
  function ResolveIcons(s: Selement, slots: seq<IconSlot>, images: map<string, nat>, mapName: string): Result<Selement, ImportError>
    decreases |slots|
  {
    if slots == [] then Success(s)
    else
      match ResolveIcons(s, slots[..|slots| - 1], images, mapName)
      case Failure(e) => Failure(e)
      case Success(s') => ResolveIcon(s', slots[|slots| - 1], images, mapName)
  }

  /** One map element: its id, then its four icons. */
  function ResolveSelement(s: Selement, ref: Referencer, images: map<string, nat>, mapName: string): Result<Selement, ImportError>
  {
    match ResolveElementId(s, ref, mapName)
    case Failure(e) => Failure(e)
    case Success(s') => ResolveIcons(s', IconSlots, images, mapName)
  }

  /** One trigger of a link: its id from the referencer. */
  function ResolveLinkTrigger(t: LinkTrigger, ref: Referencer, mapName: string): Result<LinkTrigger, ImportError>
  {
    var id := Lookup(ref.triggers, (t.description, t.expression));
    if id == 0 then Failure(MissingTrigger(t.description, mapName)) else Success(t.(triggerid := Some(id)))
  }

  /** One link: an empty trigger list loses its key, otherwise every trigger is resolved. */
  function ResolveLink(l: Link, ref: Referencer, mapName: string): Result<Link, ImportError>
  {
    if l.linktriggers.None? || l.linktriggers.value == [] then Success(l.(linktriggers := None))
    else
      match Traverse(l.linktriggers.value, TriggerResolver(ref, mapName))
      case Failure(e) => Failure(e)
      case Success(ts) => Success(l.(linktriggers := Some(ts)))
  }

  /** The icon map and the background of a map. */
  function ResolveHeader(m: SysMap, ref: Referencer, images: map<string, nat>): Result<SysMap, ImportError>
  {
    var iconmapid := if m.iconmap.Some? then Lookup(ref.iconMaps, m.iconmap.value) else 0;
    if m.iconmap.Some? && iconmapid == 0 then Failure(MissingIconMap(m.iconmap.value, m.name))
    else
      var m1 := if m.iconmap.Some? then m.(iconmapid := Some(iconmapid)) else m;
      if m.background.None? then Success(m1)
      else
        match ImageId(images, m.background.value)
        case None => Failure(MissingBackground(m.background.value, m.name))
        case Some(id) => Success(m1.(backgroundid := Some(id)))
  }

  /** resolveMapReferences: the header, then every element in order, then every link in order. */
  function ResolveMap(m: SysMap, ref: Referencer, images: map<string, nat>): Result<SysMap, ImportError>
  {
    match ResolveHeader(m, ref, images)
    case Failure(e) => Failure(e)
    case Success(m1) =>
      var selements := if m.selements.Some? then Traverse(m.selements.value, SelementResolver(ref, images, m.name)) else Success([]);
      match selements
      case Failure(e) => Failure(e)
      case Success(ss) =>
        var m2 := if m.selements.Some? then m1.(selements := Some(ss)) else m1;
        var links := if m.links.Some? then Traverse(m.links.value, LinkResolver(ref, m.name)) else Success([]);
        match links
        case Failure(e) => Failure(e)
        case Success(ls) => Success(if m.links.Some? then m2.(links := Some(ls)) else m2)
  }

  /** The resolution of each element of the map named `mapName`. */
  function SelementResolver(ref: Referencer, images: map<string, nat>, mapName: string): Selement -> Result<Selement, ImportError>
  {
    s => ResolveSelement(s, ref, images, mapName)
  }

  /** The resolution of each trigger of a link of the map named `mapName`. */
  function TriggerResolver(ref: Referencer, mapName: string): LinkTrigger -> Result<LinkTrigger, ImportError>
  {
    t => ResolveLinkTrigger(t, ref, mapName)
  }

  /** The resolution of each link of the map named `mapName`. */
  function LinkResolver(ref: Referencer, mapName: string): Link -> Result<Link, ImportError>
  {
    l => ResolveLink(l, ref, mapName)
  }

  /** A failure at one icon is the failure of all four. */
  lemma {:induction false} ResolveIconsPrefixFailure(s: Selement, slots: seq<IconSlot>, images: map<string, nat>, mapName: string, i: nat)
    requires i <= |slots| && ResolveIcons(s, slots[..i], images, mapName).Failure?
    ensures ResolveIcons(s, slots, images, mapName) == ResolveIcons(s, slots[..i], images, mapName)
    decreases |slots| - i
  {
    if i < |slots| {
      assert slots[..i + 1][..i] == slots[..i];
      ResolveIconsPrefixFailure(s, slots, images, mapName, i + 1);
    } else {
      assert slots[..i] == slots;
    }
  }

  /** The loop over the icon fields of one element. */
  method ResolveIconIds(s: Selement, images: map<string, nat>, mapName: string) returns (r: Result<Selement, ImportError>)
    ensures r == ResolveIcons(s, IconSlots, images, mapName)
  {
    var cur := s;
    for k := 0 to |IconSlots|
      invariant ResolveIcons(s, IconSlots[..k], images, mapName) == Success(cur)
    {
      assert IconSlots[..k + 1][..k] == IconSlots[..k];
      var slot := IconSlots[k];
      if slot in cur.icons {
        var image := ImageId(images, cur.icons[slot]);
        if image.None? {
          ResolveIconsPrefixFailure(s, IconSlots, images, mapName, k + 1);
          return Failure(MissingIcon(cur.icons[slot], mapName));
        }
        cur := cur.(iconids := cur.iconids[slot := image.value]);
      }
    }
    assert IconSlots[..|IconSlots|] == IconSlots;
    return Success(cur);
  }

  /** The loop over the elements of a map, each resolved in place. */
  method ResolveSelements(ss: seq<Selement>, ref: Referencer, images: map<string, nat>, mapName: string)
    returns (r: Result<seq<Selement>, ImportError>)
    ensures r == Traverse(ss, SelementResolver(ref, images, mapName))
  {
    ghost var f := SelementResolver(ref, images, mapName);
    var cur := ss;
    for i := 0 to |ss|
      invariant |cur| == |ss| && cur[i..] == ss[i..]
      invariant Traverse(ss[..i], f) == Success(cur[..i])
    {
      assert cur[i] == ss[i..][0];
      TraverseStep(ss, f, i, cur[..i]);
      var withId := ResolveElementId(cur[i], ref, mapName);
      if withId.Failure? {
        return Failure(withId.error);
      }
      var resolved := ResolveIconIds(withId.value, images, mapName);
      if resolved.Failure? {
        return Failure(resolved.error);
      }
      assert cur[i := resolved.value][..i + 1] == cur[..i] + [resolved.value];
      assert cur[i := resolved.value][i + 1..] == cur[i + 1..];
      cur := cur[i := resolved.value];
    }
    assert ss[..|ss|] == ss;
    assert cur[..|ss|] == cur;
    return Success(cur);
  }

  /** The loop over the triggers of one link, each resolved in place. */
  method ResolveLinkTriggers(ts: seq<LinkTrigger>, ref: Referencer, mapName: string)
    returns (r: Result<seq<LinkTrigger>, ImportError>)
    ensures r == Traverse(ts, TriggerResolver(ref, mapName))
  {
    ghost var f := TriggerResolver(ref, mapName);
    var cur := ts;
    for i := 0 to |ts|
      invariant |cur| == |ts| && cur[i..] == ts[i..]
      invariant Traverse(ts[..i], f) == Success(cur[..i])
    {
      assert cur[i] == ts[i..][0];
      TraverseStep(ts, f, i, cur[..i]);
      var t := cur[i];
      var triggerId := Lookup(ref.triggers, (t.description, t.expression));
      if triggerId == 0 {
        return Failure(MissingTrigger(t.description, mapName));
      }
      assert cur[i := t.(triggerid := Some(triggerId))][..i + 1] == cur[..i] + [t.(triggerid := Some(triggerId))];
      assert cur[i := t.(triggerid := Some(triggerId))][i + 1..] == cur[i + 1..];
      cur := cur[i := t.(triggerid := Some(triggerId))];
    }
    assert ts[..|ts|] == ts;
    assert cur[..|ts|] == cur;
    return Success(cur);
  }

  /** The loop over the links of a map, each resolved in place. */
  method ResolveLinks(ls: seq<Link>, ref: Referencer, mapName: string) returns (r: Result<seq<Link>, ImportError>)
    ensures r == Traverse(ls, LinkResolver(ref, mapName))
  {
    ghost var f := LinkResolver(ref, mapName);
    var cur := ls;
    for i := 0 to |ls|
      invariant |cur| == |ls| && cur[i..] == ls[i..]
      invariant Traverse(ls[..i], f) == Success(cur[..i])
    {
      assert cur[i] == ls[i..][0];
      TraverseStep(ls, f, i, cur[..i]);
      var link := cur[i];
      if link.linktriggers.None? || link.linktriggers.value == [] {
        link := link.(linktriggers := None);
      } else {
        var ts := ResolveLinkTriggers(link.linktriggers.value, ref, mapName);
        if ts.Failure? {
          return Failure(ts.error);
        }
        link := link.(linktriggers := Some(ts.value));
      }
      assert cur[i := link][..i + 1] == cur[..i] + [link];
      assert cur[i := link][i + 1..] == cur[i + 1..];
      cur := cur[i := link];
    }
    assert ls[..|ls|] == ls;
    assert cur[..|ls|] == cur;
    return Success(cur);
  }

  /** resolveMapReferences; the exception is the returned error. */
  method ResolveMapReferences(m: SysMap, ref: Referencer, images: map<string, nat>) returns (r: Result<SysMap, ImportError>)
    ensures r == ResolveMap(m, ref, images)
  {
    var cur := m;
    if m.iconmap.Some? {
      var iconmapid := Lookup(ref.iconMaps, m.iconmap.value);
      cur := cur.(iconmapid := Some(iconmapid));
      if iconmapid == 0 {
        return Failure(MissingIconMap(m.iconmap.value, m.name));
      }
    }
    if m.background.Some? {
      var image := ImageId(images, m.background.value);
      if image.None? {
        return Failure(MissingBackground(m.background.value, m.name));
      }
      cur := cur.(backgroundid := Some(image.value));
    }
    assert ResolveHeader(m, ref, images) == Success(cur);
    if m.selements.Some? {
      var ss := ResolveSelements(m.selements.value, ref, images, m.name);
      if ss.Failure? {
        return Failure(ss.error);
      }
      cur := cur.(selements := Some(ss.value));
    }
    if m.links.Some? {
      var ls := ResolveLinks(m.links.value, ref, m.name);
      if ls.Failure? {
        return Failure(ls.error);
      }
      cur := cur.(links := Some(ls.value));
    }
    return Success(cur);
  }

  // ------------------------------------------ what resolveMapReferences means

  /** The referencer knows what the element shows, for the types that name something. */
  predicate ElementKnown(s: Selement, ref: Referencer)
  {
    (s.elementtype.MapElement? ==> Lookup(ref.maps, s.element.name) != 0) &&
    (s.elementtype.HostGroupElement? ==> Lookup(ref.groups, s.element.name) != 0) &&
    (s.elementtype.HostElement? ==> Lookup(ref.hosts, s.element.host) != 0) &&
    (s.elementtype.TriggerElement? ==> Lookup(ref.triggers, (s.element.description, s.element.expression)) != 0)
  }

  /** `id` is the element id by type: the referencer's id, 0 for an image, the old one for an unknown type. */
  predicate ElementIdOf(s: Selement, id: Option<nat>, ref: Referencer)
  {
    (s.elementtype.MapElement? ==> id == Some(Lookup(ref.maps, s.element.name))) &&
    (s.elementtype.HostGroupElement? ==> id == Some(Lookup(ref.groups, s.element.name))) &&
    (s.elementtype.HostElement? ==> id == Some(Lookup(ref.hosts, s.element.host))) &&
    (s.elementtype.TriggerElement? ==> id == Some(Lookup(ref.triggers, (s.element.description, s.element.expression)))) &&
    (s.elementtype.ImageElement? ==> id == Some(0)) &&
    (s.elementtype.OtherElement? ==> id == s.elementid)
  }

  /** Every non-empty icon names a known image. */
  predicate IconsKnown(s: Selement, images: map<string, nat>)
  {
    forall slot :: slot in s.icons ==> s.icons[slot] in images
  }

  /** `iconids` holds the image id of every non-empty icon of `s` and the old ids of the others. */
  predicate IconIdsOf(s: Selement, iconids: map<IconSlot, nat>, images: map<string, nat>)
  {
    iconids.Keys == s.iconids.Keys + s.icons.Keys &&
    (forall slot :: slot in s.icons ==> s.icons[slot] in images && iconids[slot] == images[s.icons[slot]]) &&
    (forall slot :: slot in s.iconids && slot !in s.icons ==> iconids[slot] == s.iconids[slot])
  }

  /** Every name an element uses is known: its referencer lookup and its icon images. */
  predicate SelementResolvable(s: Selement, ref: Referencer, images: map<string, nat>)
  {
    ElementKnown(s, ref) && IconsKnown(s, images)
  }

  /** `r` is `s` with its names replaced by ids; nothing else changes. */
  predicate SelementResolved(s: Selement, r: Selement, ref: Referencer, images: map<string, nat>)
  {
    r == s.(elementid := r.elementid, iconids := r.iconids) &&
    ElementIdOf(s, r.elementid, ref) && IconIdsOf(s, r.iconids, images)
  }

  /** The switch on the element type fails exactly on an unknown name, and otherwise sets the id by type. */
  lemma ResolveElementIdMeaning(s: Selement, ref: Referencer, mapName: string)
    ensures ResolveElementId(s, ref, mapName).Success? <==> ElementKnown(s, ref)
    ensures ResolveElementId(s, ref, mapName).Success? ==>
      var r := ResolveElementId(s, ref, mapName).value;
      r == s.(elementid := r.elementid) && ElementIdOf(s, r.elementid, ref)
  {
  }

  /** The icon loop fails exactly on a missing image, and otherwise sets the id of each non-empty icon of `slots`. */
  lemma {:induction false} ResolveIconsSuccess(s: Selement, slots: seq<IconSlot>, images: map<string, nat>, mapName: string)
    ensures ResolveIcons(s, slots, images, mapName).Success? <==>
      forall k :: 0 <= k < |slots| && slots[k] in s.icons ==> s.icons[slots[k]] in images
    decreases |slots|
  {
    if slots != [] {
      var init := slots[..|slots| - 1];
      ResolveIconsSuccess(s, init, images, mapName);
      assert forall k :: 0 <= k < |init| ==> init[k] == slots[k];
      if ResolveIcons(s, init, images, mapName).Success? {
        ResolveIconsKeeps(s, init, images, mapName);
      }
    }
  }

  /** The icon loop changes only `iconids`, and not the icons it reads. */
  lemma {:induction false} ResolveIconsKeeps(s: Selement, slots: seq<IconSlot>, images: map<string, nat>, mapName: string)
    requires ResolveIcons(s, slots, images, mapName).Success?
    ensures var r := ResolveIcons(s, slots, images, mapName).value; r == s.(iconids := r.iconids)
    decreases |slots|
  {
    if slots != [] {
      ResolveIconsKeeps(s, slots[..|slots| - 1], images, mapName);
    }
  }

  /** The ids the icon loop sets: the image of each non-empty icon of `slots`, the old id elsewhere. */
  lemma {:induction false} ResolveIconsIds(s: Selement, slots: seq<IconSlot>, images: map<string, nat>, mapName: string)
    requires ResolveIcons(s, slots, images, mapName).Success?
    ensures var r := ResolveIcons(s, slots, images, mapName).value;
      && r.iconids.Keys == s.iconids.Keys + (set slot | slot in slots && slot in s.icons)
      && (forall slot :: slot in slots && slot in s.icons ==> s.icons[slot] in images && r.iconids[slot] == images[s.icons[slot]])
      && (forall slot :: slot in s.iconids && !(slot in slots && slot in s.icons) ==> r.iconids[slot] == s.iconids[slot])
    decreases |slots|
  {
    if slots != [] {
      var init := slots[..|slots| - 1];
      ResolveIconsIds(s, init, images, mapName);
      ResolveIconsKeeps(s, init, images, mapName);
      assert slots == init + [slots[|slots| - 1]];
    }
  }

  /** Every slot is one of the four resolved. */
  lemma AllIconSlots(slot: IconSlot)
    ensures slot in IconSlots
  {
  }

  /** An element resolves exactly when all its names are known, and then its names are replaced by their ids. */
  lemma ResolveSelementMeaning(s: Selement, ref: Referencer, images: map<string, nat>, mapName: string)
    ensures ResolveSelement(s, ref, images, mapName).Success? <==> SelementResolvable(s, ref, images)
    ensures ResolveSelement(s, ref, images, mapName).Success? ==>
      SelementResolved(s, ResolveSelement(s, ref, images, mapName).value, ref, images)
  {
    ResolveElementIdMeaning(s, ref, mapName);
    var e := ResolveElementId(s, ref, mapName);
    if e.Success? {
      var s1 := e.value;
      assert s1.icons == s.icons && s1.iconids == s.iconids;
      forall slot | slot in s.icons
        ensures slot in IconSlots
      {
        AllIconSlots(slot);
      }
      ResolveIconsSuccess(s1, IconSlots, images, mapName);
      if ResolveIcons(s1, IconSlots, images, mapName).Success? {
        ResolveIconsKeeps(s1, IconSlots, images, mapName);
        ResolveIconsIds(s1, IconSlots, images, mapName);
      } else {
        var k :| 0 <= k < |IconSlots| && IconSlots[k] in s.icons && s.icons[IconSlots[k]] !in images;
      }
    }
  }

  /** Every trigger of a link is known. */
  predicate LinkResolvable(l: Link, ref: Referencer)
  {
    l.linktriggers.Some? ==>
      forall k :: 0 <= k < |l.linktriggers.value| ==>
        Lookup(ref.triggers, (l.linktriggers.value[k].description, l.linktriggers.value[k].expression)) != 0
  }

  /** `r` is `l` with an empty trigger list removed, or with each trigger's id set; the caption is unchanged. */
  predicate LinkResolved(l: Link, r: Link, ref: Referencer)
  {
    r.caption == l.caption &&
    if l.linktriggers.None? || l.linktriggers.value == [] then r.linktriggers.None?
    else
      r.linktriggers.Some? && |r.linktriggers.value| == |l.linktriggers.value| &&
      forall k :: 0 <= k < |l.linktriggers.value| ==>
        var t := l.linktriggers.value[k];
        r.linktriggers.value[k] == t.(triggerid := Some(Lookup(ref.triggers, (t.description, t.expression))))
  }

  /** A link resolves exactly when its triggers are known, and then its trigger ids are set. */
  lemma ResolveLinkMeaning(l: Link, ref: Referencer, mapName: string)
    ensures ResolveLink(l, ref, mapName).Success? <==> LinkResolvable(l, ref)
    ensures ResolveLink(l, ref, mapName).Success? ==> LinkResolved(l, ResolveLink(l, ref, mapName).value, ref)
  {
    if l.linktriggers.Some? && l.linktriggers.value != [] {
      TraverseSuccess(l.linktriggers.value, TriggerResolver(ref, mapName));
    }
  }

  /** Every name a map uses is known: its icon map, its background, its elements and its links. */
  predicate MapResolvable(m: SysMap, ref: Referencer, images: map<string, nat>)
  {
    (m.iconmap.Some? ==> Lookup(ref.iconMaps, m.iconmap.value) != 0) &&
    (m.background.Some? ==> m.background.value in images) &&
    (m.selements.Some? ==> forall k :: 0 <= k < |m.selements.value| ==> SelementResolvable(m.selements.value[k], ref, images)) &&
    (m.links.Some? ==> forall k :: 0 <= k < |m.links.value| ==> LinkResolvable(m.links.value[k], ref))
  }

  /** `r` is `m` with every name replaced by its id, element by element and link by link. */
  predicate MapResolved(m: SysMap, r: SysMap, ref: Referencer, images: map<string, nat>)
  {
    r.name == m.name && r.sysmapid == m.sysmapid && r.iconmap == m.iconmap && r.background == m.background &&
    r.iconmapid == (if m.iconmap.Some? then Some(Lookup(ref.iconMaps, m.iconmap.value)) else m.iconmapid) &&
    (m.background.Some? ==> m.background.value in images && r.backgroundid == Some(images[m.background.value])) &&
    (m.background.None? ==> r.backgroundid == m.backgroundid) &&
    r.selements.Some? == m.selements.Some? &&
    (m.selements.Some? ==>
      |r.selements.value| == |m.selements.value| &&
      forall k :: 0 <= k < |m.selements.value| ==> SelementResolved(m.selements.value[k], r.selements.value[k], ref, images)) &&
    r.links.Some? == m.links.Some? &&
    (m.links.Some? ==>
      |r.links.value| == |m.links.value| &&
      forall k :: 0 <= k < |m.links.value| ==> LinkResolved(m.links.value[k], r.links.value[k], ref))
  }

  /** The elements of a map resolve exactly when each one does, each to its resolved form. */
  lemma ResolveSelementsMeaning(ss: seq<Selement>, ref: Referencer, images: map<string, nat>, mapName: string)
    ensures var r := Traverse(ss, SelementResolver(ref, images, mapName));
      && (r.Success? <==> forall k :: 0 <= k < |ss| ==> SelementResolvable(ss[k], ref, images))
      && (r.Success? ==> |r.value| == |ss| && forall k :: 0 <= k < |ss| ==> SelementResolved(ss[k], r.value[k], ref, images))
  {
    TraverseSuccess(ss, SelementResolver(ref, images, mapName));
    forall k | 0 <= k < |ss|
      ensures ResolveSelement(ss[k], ref, images, mapName).Success? <==> SelementResolvable(ss[k], ref, images)
      ensures ResolveSelement(ss[k], ref, images, mapName).Success? ==>
        SelementResolved(ss[k], ResolveSelement(ss[k], ref, images, mapName).value, ref, images)
    {
      ResolveSelementMeaning(ss[k], ref, images, mapName);
    }
  }

  /** The links of a map resolve exactly when each one does, each to its resolved form. */
  lemma ResolveLinksMeaning(ls: seq<Link>, ref: Referencer, mapName: string)
    ensures var r := Traverse(ls, LinkResolver(ref, mapName));
      && (r.Success? <==> forall k :: 0 <= k < |ls| ==> LinkResolvable(ls[k], ref))
      && (r.Success? ==> |r.value| == |ls| && forall k :: 0 <= k < |ls| ==> LinkResolved(ls[k], r.value[k], ref))
  {
    TraverseSuccess(ls, LinkResolver(ref, mapName));
    forall k | 0 <= k < |ls|
      ensures ResolveLink(ls[k], ref, mapName).Success? <==> LinkResolvable(ls[k], ref)
      ensures ResolveLink(ls[k], ref, mapName).Success? ==> LinkResolved(ls[k], ResolveLink(ls[k], ref, mapName).value, ref)
    {
      ResolveLinkMeaning(ls[k], ref, mapName);
    }
  }

  /**
   * resolveMapReferences throws exactly when some name of the map is unknown,
   * and otherwise replaces every name by its id and changes nothing else.
   */
  lemma ResolveMapMeaning(m: SysMap, ref: Referencer, images: map<string, nat>)
    ensures ResolveMap(m, ref, images).Success? <==> MapResolvable(m, ref, images)
    ensures ResolveMap(m, ref, images).Success? ==> MapResolved(m, ResolveMap(m, ref, images).value, ref, images)
  {
    if m.selements.Some? {
      ResolveSelementsMeaning(m.selements.value, ref, images, m.name);
    }
    if m.links.Some? {
      ResolveLinksMeaning(m.links.value, ref, m.name);
    }
  }

  // ---------------------------------------------------------------- import

  /** A write through the map API: `API::Map()->create` or `API::Map()->update`. */
  datatype ApiCall = CreateMaps(maps: seq<SysMap>) | UpdateMaps(maps: seq<SysMap>)

  /** The importer's options for maps. */
  datatype MapOptions = MapOptions(createMissing: bool, updateExisting: bool)

  /** The names of a valid hash all have a map. */
  lemma HashCovers(h: Hash)
    requires ValidHash(h)
    ensures Covers(h.order, h.maps)
  {
    forall k | 0 <= k < |h.order|
      ensures h.order[k] in h.maps
    {
      assert h.order[k] in h.order;
    }
  }

  /** The maps of a hash without their elements, keyed by the same names. */
  function WithoutElementsAll(maps: map<string, SysMap>): (r: map<string, SysMap>)
    ensures r.Keys == maps.Keys
  {
    map n | n in maps :: WithoutElements(maps[n])
  }

  /** `addMapRef` for each created map: the map at position `k` of the create call gets id `newId(k)`. */
  function Registered(ref: Referencer, created: seq<SysMap>, newId: nat -> nat): Referencer
    decreases |created|
  {
    if created == [] then ref
    else
      var prev := Registered(ref, created[..|created| - 1], newId);
      prev.(maps := prev.maps[created[|created| - 1].name := newId(|created| - 1)])
  }

  /**
   * The source maps with the id of each created map recorded. Every created
   * name is a key of the hash, so the branch that skips a missing name is never taken.
   */
  function CreatedIds(maps: map<string, SysMap>, created: seq<SysMap>, newId: nat -> nat): (r: map<string, SysMap>)
    ensures r.Keys == maps.Keys
    decreases |created|
  {
    if created == [] then maps
    else
      var prev := CreatedIds(maps, created[..|created| - 1], newId);
      var name := created[|created| - 1].name;
      if name in prev then prev[name := prev[name].(sysmapid := Some(newId(|created| - 1)))] else prev
  }

  /** The last loop of `import`: each map in hash order resolved and written, up to the first exception. */
  function UpdateAll(order: seq<string>, maps: map<string, SysMap>, ref: Referencer, images: map<string, nat>)
    : (r: (seq<ApiCall>, Option<ImportError>))
    requires Covers(order, maps)
    decreases |order|
  {
    if order == [] then ([], None)
    else
      CoversSlice(order, maps, 0, |order| - 1);
      var prev := UpdateAll(order[..|order| - 1], maps, ref, images);
      if prev.1.Some? then prev
      else
        match ResolveMap(maps[order[|order| - 1]], ref, images)
        case Failure(e) => (prev.0, Some(e))
        case Success(m) => (prev.0 + [UpdateMaps([m])], None)
  }

  /** The state of `import` before its last loop: the create and update calls, the source maps and the referencer. */
  datatype Prepared = Prepared(writes: seq<ApiCall>, maps: map<string, SysMap>, ref: Referencer)

  /** The create/update split, the create call with `addMapRef`, and the update call. */
  function Prepare(h: Hash, ref: Referencer, opts: MapOptions, newId: nat -> nat): (p: Prepared)
    requires ValidHash(h)
    ensures p.maps.Keys == h.maps.Keys && Covers(h.order, p.maps)
  {
    HashCovers(h);
    var noElems := WithoutElementsAll(h.maps);
    var toCreate := CreateList(h.order, noElems, ref);
    var toUpdate := UpdateList(h.order, noElems, ref);
    var maps1 := RecordIds(h.maps, noElems, ref, h.order);
    var create := opts.createMissing && toCreate != [];
    Prepared(
      (if create then [CreateMaps(toCreate)] else []) +
        (if opts.updateExisting && toUpdate != [] then [UpdateMaps(toUpdate)] else []),
      if create then CreatedIds(maps1, toCreate, newId) else maps1,
      if create then Registered(ref, toCreate, newId) else ref)
  }

  /** What `import` does with the maps keyed by name: the API calls it makes, in order, and the exception that stops it. */
  function ImportHash(h: Hash, ref: Referencer, images: map<string, nat>, opts: MapOptions, newId: nat -> nat)
    : (r: (seq<ApiCall>, Option<ImportError>))
    requires ValidHash(h)
  {
    match FirstCycle(h.order, h.maps)
    case Some(c) => ([], Some(CircularReference(c)))
    case None =>
      var p := Prepare(h, ref, opts, newId);
      var final := UpdateAll(h.order, p.maps, p.ref, images);
      (p.writes + final.0, final.1)
  }

  /** What `import` does with the list of imported maps. */
  function ImportResult(list: seq<SysMap>, ref: Referencer, images: map<string, nat>, opts: MapOptions, newId: nat -> nat)
    : (r: (seq<ApiCall>, Option<ImportError>))
  {
    ImportHash(ToHash(list), ref, images, opts, newId)
  }

  /** A failure of a prefix of the last loop is its failure. */
  lemma {:induction false} UpdateAllPrefixFailure(order: seq<string>, maps: map<string, SysMap>, ref: Referencer, images: map<string, nat>, i: nat)
    requires Covers(order, maps) && i <= |order|
    requires Covers(order[..i], maps) && UpdateAll(order[..i], maps, ref, images).1.Some?
    ensures UpdateAll(order, maps, ref, images) == UpdateAll(order[..i], maps, ref, images)
    decreases |order| - i
  {
    if i < |order| {
      assert order[..i + 1][..i] == order[..i];
      CoversSlice(order, maps, 0, i + 1);
      UpdateAllPrefixFailure(order, maps, ref, images, i + 1);
    } else {
      assert order[..i] == order;
    }
  }

  /** The loop of `import` after the create call: `addMapRef` and the new `sysmapid` for each created map. */
  method RegisterCreatedMaps(toCreate: seq<SysMap>, ref: Referencer, maps: map<string, SysMap>, newId: nat -> nat)
    returns (referencer: Referencer, maps': map<string, SysMap>)
    ensures referencer == Registered(ref, toCreate, newId)
    ensures maps' == CreatedIds(maps, toCreate, newId)
  {
    referencer, maps' := ref, maps;
    for num := 0 to |toCreate|
      invariant referencer == Registered(ref, toCreate[..num], newId)
      invariant maps' == CreatedIds(maps, toCreate[..num], newId)
    {
      assert toCreate[..num + 1][..num] == toCreate[..num];
      var mapId := newId(num);
      var name := toCreate[num].name;
      referencer := referencer.(maps := referencer.maps[name := mapId]);
      if name in maps' {
        maps' := maps'[name := maps'[name].(sysmapid := Some(mapId))];
      }
    }
    assert toCreate[..|toCreate|] == toCreate;
  }

  /** The last loop of `import`: resolve each map and write it, stopping at the first exception. */
  method UpdateEach(order: seq<string>, maps: map<string, SysMap>, ref: Referencer, images: map<string, nat>)
    returns (calls: seq<ApiCall>, err: Option<ImportError>)
    requires Covers(order, maps)
    ensures (calls, err) == UpdateAll(order, maps, ref, images)
  {
    calls := [];
    for i := 0 to |order|
      invariant Covers(order[..i], maps)
      invariant UpdateAll(order[..i], maps, ref, images) == (calls, None)
    {
      CoversSlice(order, maps, 0, i + 1);
      assert order[..i + 1][..i] == order[..i];
      var resolved := ResolveMapReferences(maps[order[i]], ref, images);
      if resolved.Failure? {
        UpdateAllPrefixFailure(order, maps, ref, images, i + 1);
        return calls, Some(resolved.error);
      }
      calls := calls + [UpdateMaps([resolved.value])];
    }
    assert order[..|order|] == order;
    return calls, None;
  }

  /** `import`: the API calls made, in order, and the exception that stops it, if any. */
  method Import(list: seq<SysMap>, ref: Referencer, images: map<string, nat>, opts: MapOptions, newId: nat -> nat)
    returns (calls: seq<ApiCall>, err: Option<ImportError>)
    ensures (calls, err) == ImportResult(list, ref, images, opts, newId)
  {
    var h := ToHash(list);
    HashCovers(h);
    err := CheckCircularMapReferences(h.order, h.maps);
    if err.Some? {
      return [], err;
    }
    var writes, maps, referencer := PrepareMaps(h, ref, opts, newId);
    var updates;
    updates, err := UpdateEach(h.order, maps, referencer, images);
    calls := writes + updates;
  }

  /** The part of `import` between the cycle check and the last loop. */
  method PrepareMaps(h: Hash, ref: Referencer, opts: MapOptions, newId: nat -> nat)
    returns (writes: seq<ApiCall>, maps: map<string, SysMap>, referencer: Referencer)
    requires ValidHash(h)
    ensures Prepared(writes, maps, referencer) == Prepare(h, ref, opts, newId)
  {
    HashCovers(h);
    var noElems := GetMapsWithoutElements(h);
    assert noElems == WithoutElementsAll(h.maps);
    var toCreate, toUpdate;
    toCreate, toUpdate, maps := SplitMaps(h.order, h.maps, noElems, ref);
    referencer := ref;
    writes := [];
    if opts.createMissing && toCreate != [] {
      writes := [CreateMaps(toCreate)];
      referencer, maps := RegisterCreatedMaps(toCreate, ref, maps, newId);
    }
    if opts.updateExisting && toUpdate != [] {
      writes := writes + [UpdateMaps(toUpdate)];
    }
  }

  // ------------------------------------------------------ what import means

  /** A cycle among the imported maps stops `import` before any API call, and the exception names a real cycle. */
  lemma ImportCircular(h: Hash, ref: Referencer, images: map<string, nat>, opts: MapOptions, newId: nat -> nat, c: seq<string>)
    requires ValidHash(h) && Cycle(h.maps, c)
    ensures var r := ImportHash(h, ref, images, opts, newId);
      r.0 == [] && r.1.Some? && r.1.value.CircularReference? && Cycle(h.maps, r.1.value.cycle)
  {
    CycleReported(h, c);
    FirstCycleSound(h.order, h.maps);
  }

  /** The last loop writes every map, in order, exactly when every map resolves. */
  lemma {:induction false} UpdateAllSuccess(order: seq<string>, maps: map<string, SysMap>, ref: Referencer, images: map<string, nat>)
    requires Covers(order, maps)
    ensures UpdateAll(order, maps, ref, images).1.None? <==>
      forall k :: 0 <= k < |order| ==> MapResolvable(maps[order[k]], ref, images)
    ensures UpdateAll(order, maps, ref, images).1.None? ==>
      var calls := UpdateAll(order, maps, ref, images).0;
      |calls| == |order| &&
      forall k :: 0 <= k < |order| ==>
        ResolveMap(maps[order[k]], ref, images).Success? && calls[k] == UpdateMaps([ResolveMap(maps[order[k]], ref, images).value])
    decreases |order|
  {
    if order != [] {
      var init := order[..|order| - 1];
      CoversSlice(order, maps, 0, |order| - 1);
      UpdateAllSuccess(init, maps, ref, images);
      assert forall k :: 0 <= k < |init| ==> init[k] == order[k];
      ResolveMapMeaning(maps[order[|order| - 1]], ref, images);
      if UpdateAll(init, maps, ref, images).1.Some? {
        var k :| 0 <= k < |init| && !MapResolvable(maps[init[k]], ref, images);
      }
    }
  }

  /** Recording ids changes only the `sysmapid` of the source maps. */
  lemma {:induction false} RecordIdsOnlyIds(maps: map<string, SysMap>, noElems: map<string, SysMap>, ref: Referencer, names: seq<string>)
    requires Covers(names, noElems) && Covers(names, maps)
    ensures var r := RecordIds(maps, noElems, ref, names);
      forall n :: n in maps ==> r[n] == maps[n].(sysmapid := r[n].sysmapid)
    decreases |names|
  {
    if names != [] {
      CoversSlice(names, noElems, 0, |names| - 1);
      CoversSlice(names, maps, 0, |names| - 1);
      RecordIdsOnlyIds(maps, noElems, ref, names[..|names| - 1]);
    }
  }

  /** Recording the ids of created maps changes only the `sysmapid` of the source maps. */
  lemma {:induction false} CreatedIdsOnlyIds(maps: map<string, SysMap>, created: seq<SysMap>, newId: nat -> nat)
    ensures var r := CreatedIds(maps, created, newId);
      forall n :: n in maps ==> r[n] == maps[n].(sysmapid := r[n].sysmapid)
    decreases |created|
  {
    if created != [] {
      CreatedIdsOnlyIds(maps, created[..|created| - 1], newId);
    }
  }

  /** Before the last loop the source maps differ from the imported ones only in `sysmapid`. */
  lemma PrepareOnlyIds(h: Hash, ref: Referencer, opts: MapOptions, newId: nat -> nat)
    requires ValidHash(h)
    ensures var p := Prepare(h, ref, opts, newId);
      forall n :: n in h.maps ==> p.maps[n] == h.maps[n].(sysmapid := p.maps[n].sysmapid)
  {
    HashCovers(h);
    var noElems := WithoutElementsAll(h.maps);
    RecordIdsOnlyIds(h.maps, noElems, ref, h.order);
    var maps1 := RecordIds(h.maps, noElems, ref, h.order);
    CreatedIdsOnlyIds(maps1, CreateList(h.order, noElems, ref), newId);
  }

  /** `addMapRef` with non-zero ids makes every created name known and forgets no known name. */
  lemma {:induction false} RegisteredKnows(ref: Referencer, created: seq<SysMap>, newId: nat -> nat)
    requires forall k :: newId(k) != 0
    ensures var r := Registered(ref, created, newId);
      && r == ref.(maps := r.maps)
      && (forall k :: 0 <= k < |created| ==> Lookup(r.maps, created[k].name) != 0)
      && (forall n :: Lookup(ref.maps, n) != 0 ==> Lookup(r.maps, n) != 0)
    decreases |created|
  {
    if created != [] {
      var init := created[..|created| - 1];
      RegisteredKnows(ref, init, newId);
      assert forall k :: 0 <= k < |init| ==> init[k] == created[k];
    }
  }

  /** A map whose name the referencer does not know is in the create list. */
  lemma {:induction false} CreateListHas(order: seq<string>, noElems: map<string, SysMap>, ref: Referencer, k: nat)
    requires Covers(order, noElems) && k < |order| && Lookup(ref.maps, noElems[order[k]].name) == 0
    ensures exists j :: 0 <= j < |CreateList(order, noElems, ref)| && CreateList(order, noElems, ref)[j] == noElems[order[k]]
    decreases |order|
  {
    var init := order[..|order| - 1];
    CoversSlice(order, noElems, 0, |order| - 1);
    if k < |order| - 1 {
      assert init[k] == order[k];
      CreateListHas(init, noElems, ref, k);
      var j :| 0 <= j < |CreateList(init, noElems, ref)| && CreateList(init, noElems, ref)[j] == noElems[order[k]];
      assert CreateList(order, noElems, ref)[j] == noElems[order[k]];
    } else {
      var c := CreateList(order, noElems, ref);
      assert c[|c| - 1] == noElems[order[k]];
    }
  }

  /**
   * With `createMissing` and non-zero new ids, every imported map is known to
   * the referencer before its elements are resolved; the other tables are untouched.
   */
  lemma PrepareKnowsAll(h: Hash, ref: Referencer, opts: MapOptions, newId: nat -> nat)
    requires ValidHash(h) && opts.createMissing && forall k :: newId(k) != 0
    ensures var p := Prepare(h, ref, opts, newId);
      && p.ref == ref.(maps := p.ref.maps)
      && (forall n :: n in h.maps ==> Lookup(p.ref.maps, n) != 0)
      && (forall n :: Lookup(ref.maps, n) != 0 ==> Lookup(p.ref.maps, n) != 0)
  {
    HashCovers(h);
    var noElems := WithoutElementsAll(h.maps);
    var toCreate := CreateList(h.order, noElems, ref);
    RegisteredKnows(ref, toCreate, newId);
    var p := Prepare(h, ref, opts, newId);
    forall n | n in h.maps
      ensures Lookup(p.ref.maps, n) != 0
    {
      assert n in h.order;
      var k :| 0 <= k < |h.order| && h.order[k] == n;
      assert noElems[n].name == n;
      if Lookup(ref.maps, n) == 0 {
        CreateListHas(h.order, noElems, ref, k);
      }
    }
  }

  /**
   * Every name a map uses is known, except that a map element may also show a
   * map among `imported`.
   */
  predicate ResolvableOnceImported(m: SysMap, ref: Referencer, images: map<string, nat>, imported: set<string>)
  {
    (m.iconmap.Some? ==> Lookup(ref.iconMaps, m.iconmap.value) != 0) &&
    (m.background.Some? ==> m.background.value in images) &&
    (m.selements.Some? ==>
      forall k :: 0 <= k < |m.selements.value| ==>
        var s := m.selements.value[k];
        (s.elementtype.MapElement? ==> s.element.name in imported || Lookup(ref.maps, s.element.name) != 0) &&
        (!s.elementtype.MapElement? ==> ElementKnown(s, ref)) &&
        IconsKnown(s, images)) &&
    (m.links.Some? ==> forall k :: 0 <= k < |m.links.value| ==> LinkResolvable(m.links.value[k], ref))
  }

  /** Such a map resolves against any referencer that also knows the imported names. */
  lemma ResolvableOnceKnown(m: SysMap, ref: Referencer, ref': Referencer, images: map<string, nat>, imported: set<string>)
    requires ResolvableOnceImported(m, ref, images, imported)
    requires ref' == ref.(maps := ref'.maps)
    requires forall n :: n in imported ==> Lookup(ref'.maps, n) != 0
    requires forall n :: Lookup(ref.maps, n) != 0 ==> Lookup(ref'.maps, n) != 0
    ensures MapResolvable(m, ref', images)
  {
    if m.selements.Some? {
      forall k | 0 <= k < |m.selements.value|
        ensures SelementResolvable(m.selements.value[k], ref', images)
      {
      }
    }
  }

  /** `checkCircularMapReferences` raises nothing exactly when the imported maps have no cycle. */
  lemma NoCycleReported(h: Hash)
    requires ValidHash(h)
    ensures FirstCycle(h.order, h.maps).None? <==> forall c :: !Cycle(h.maps, c)
  {
    FirstCycleSound(h.order, h.maps);
    forall c | Cycle(h.maps, c)
      ensures FirstCycle(h.order, h.maps).Some?
    {
      CycleReported(h, c);
    }
  }

  /**
   * The point of creating maps before resolving them: with `createMissing` and
   * non-zero new ids, an import without cycles (see `NoCycleReported`) whose maps use only known names
   * or each other raises nothing; by `ImportHashNoCycle` and `PreparedWrites` its last
   * calls then write every map, one by one, in hash order.
   */
  lemma ImportWritesAll(h: Hash, ref: Referencer, images: map<string, nat>, opts: MapOptions, newId: nat -> nat)
    requires ValidHash(h) && opts.createMissing && forall k :: newId(k) != 0
    requires FirstCycle(h.order, h.maps).None?
    requires forall n :: n in h.maps ==> ResolvableOnceImported(h.maps[n], ref, images, h.maps.Keys)
    ensures ImportHash(h, ref, images, opts, newId).1 == None
  {
    PreparedWrites(h, ref, images, opts, newId);
    ImportHashNoCycle(h, ref, images, opts, newId);
  }

  /** Without a cycle, `import` makes the create and update calls and then runs its last loop. */
  lemma ImportHashNoCycle(h: Hash, ref: Referencer, images: map<string, nat>, opts: MapOptions, newId: nat -> nat)
    requires ValidHash(h) && FirstCycle(h.order, h.maps).None?
    ensures var p := Prepare(h, ref, opts, newId);
      var final := UpdateAll(h.order, p.maps, p.ref, images);
      ImportHash(h, ref, images, opts, newId) == (p.writes + final.0, final.1)
  {
  }

  /** When every map resolves to a map of the same name, the last loop writes each one, in order. */
  lemma UpdateAllNames(order: seq<string>, maps: map<string, SysMap>, ref: Referencer, images: map<string, nat>)
    requires Covers(order, maps)
    requires forall k :: 0 <= k < |order| ==>
      && MapResolvable(maps[order[k]], ref, images)
      && ResolveMap(maps[order[k]], ref, images).Success?
      && ResolveMap(maps[order[k]], ref, images).value.name == order[k]
    ensures var r := UpdateAll(order, maps, ref, images);
      && r.1 == None
      && |r.0| == |order|
      && forall k :: 0 <= k < |order| ==> r.0[k].UpdateMaps? && |r.0[k].maps| == 1 && r.0[k].maps[0].name == order[k]
  {
    UpdateAllSuccess(order, maps, ref, images);
  }

  /** Under the premises of `ImportWritesAll`, the last loop writes every map, in order. */
  lemma PreparedWrites(h: Hash, ref: Referencer, images: map<string, nat>, opts: MapOptions, newId: nat -> nat)
    requires ValidHash(h) && opts.createMissing && forall k :: newId(k) != 0
    requires forall n :: n in h.maps ==> ResolvableOnceImported(h.maps[n], ref, images, h.maps.Keys)
    ensures var p := Prepare(h, ref, opts, newId);
      var r := UpdateAll(h.order, p.maps, p.ref, images);
      && r.1 == None
      && |r.0| == |h.order|
      && forall k :: 0 <= k < |h.order| ==> r.0[k].UpdateMaps? && |r.0[k].maps| == 1 && r.0[k].maps[0].name == h.order[k]
  {
    var p := Prepare(h, ref, opts, newId);
    PreparedResolve(h, ref, images, opts, newId);
    UpdateAllNames(h.order, p.maps, p.ref, images);
  }

  /** Under the premises of `ImportWritesAll`, every source map resolves in the last loop and keeps its name. */
  lemma PreparedResolve(h: Hash, ref: Referencer, images: map<string, nat>, opts: MapOptions, newId: nat -> nat)
    requires ValidHash(h) && opts.createMissing && forall k :: newId(k) != 0
    requires forall n :: n in h.maps ==> ResolvableOnceImported(h.maps[n], ref, images, h.maps.Keys)
    ensures var p := Prepare(h, ref, opts, newId);
      forall k :: 0 <= k < |h.order| ==>
        && MapResolvable(p.maps[h.order[k]], p.ref, images)
        && ResolveMap(p.maps[h.order[k]], p.ref, images).Success?
        && ResolveMap(p.maps[h.order[k]], p.ref, images).value.name == h.order[k]
  {
    var p := Prepare(h, ref, opts, newId);
    PrepareKnowsAll(h, ref, opts, newId);
    PrepareOnlyIds(h, ref, opts, newId);
    forall k | 0 <= k < |h.order|
      ensures MapResolvable(p.maps[h.order[k]], p.ref, images)
      ensures ResolveMap(p.maps[h.order[k]], p.ref, images).Success? &&
        ResolveMap(p.maps[h.order[k]], p.ref, images).value.name == h.order[k]
    {
      var n := h.order[k];
      assert n in h.order;
      ResolvableOnceKnown(h.maps[n], ref, p.ref, images, h.maps.Keys);
      assert MapResolvable(p.maps[n], p.ref, images);
      ResolveMapMeaning(p.maps[n], p.ref, images);
    }
  }

}
