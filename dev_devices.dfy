/**
 * iOS device selection for the development mode: the simulator list read
 * from `simctl`'s JSON or, as a fallback, from its text listing; the
 * booted-first, by-name order; and the choice of a device by number.
 * Running `xcrun`, `xcodebuild` and the console are outside the model.
 */
module DevDevices {
  import opened Wrappers
  import opened Strings
  import Json

  datatype Device = Device(id: string, name: string, runtime: string, booted: bool)

  // ---------------------------------------------------------------------------
  // The JSON listing

  const BOOTED := "Booted"

  /** One JSON device entry: it needs a string `udid` and `name`; a missing `state` counts as shut down. */
  function JsonDevice(runtime: string, d: Json.Value): (r: Option<Device>)
    ensures r.Some? <==> Json.AsStr(Json.GetKey(d, "udid")).Some? && Json.AsStr(Json.GetKey(d, "name")).Some?
    ensures r.Some? ==> (r.value.booted <==> Json.AsStr(Json.GetKey(d, "state")) == Some(BOOTED))
    ensures r.Some? ==> r.value.runtime == runtime
  {
    var id := Json.AsStr(Json.GetKey(d, "udid"));
    var name := Json.AsStr(Json.GetKey(d, "name"));
    if id.None? || name.None? then None
    else
      var state := Json.AsStr(Json.GetKey(d, "state"));
      var s := if state.Some? then state.value else "Shutdown";
      Some(Device(id.value, name.value, runtime, s == BOOTED))
  }

  function JsonDeviceList(runtime: string, items: seq<Json.Value>): seq<Device>
  {
    if items == [] then []
    else
      var rest := JsonDeviceList(runtime, items[..|items| - 1]);
      var d := JsonDevice(runtime, items[|items| - 1]);
      if d.Some? then rest + [d.value] else rest
  }

  function JsonRuntimes(members: seq<(string, Json.Value)>): seq<Device>
  {
    if members == [] then []
    else
      var (runtime, list) := members[|members| - 1];
      JsonRuntimes(members[..|members| - 1]) + (if list.Array? then JsonDeviceList(runtime, list.items) else [])
  }

  /** The devices of `{"devices": {runtime: [device, …], …}}`, runtime by runtime. */
  function JsonDevices(v: Json.Value): seq<Device>
  {
    match Json.GetKey(v, "devices")
    case Some(Object(members)) => JsonRuntimes(members)
    case _ => []
  }

  /** Every device read from JSON carries a runtime it was listed under and a name and id given there. */
  lemma {:induction false} JsonRuntimesFrom(members: seq<(string, Json.Value)>, k: nat)
    requires k < |JsonRuntimes(members)|
    ensures exists i :: 0 <= i < |members| && JsonRuntimes(members)[k].runtime == members[i].0
    decreases |members|
  {
    var init := members[..|members| - 1];
    var (runtime, list) := members[|members| - 1];
    if k < |JsonRuntimes(init)| {
      JsonRuntimesFrom(init, k);
      var i :| 0 <= i < |init| && JsonRuntimes(init)[k].runtime == init[i].0;
      assert members[i] == init[i];
    } else {
      JsonDeviceListRuntime(runtime, list.items, k - |JsonRuntimes(init)|);
    }
  }

  lemma {:induction false} JsonDeviceListRuntime(runtime: string, items: seq<Json.Value>, k: nat)
    requires k < |JsonDeviceList(runtime, items)|
    ensures JsonDeviceList(runtime, items)[k].runtime == runtime
    decreases |items|
  {
    var init := items[..|items| - 1];
    if k < |JsonDeviceList(runtime, init)| {
      JsonDeviceListRuntime(runtime, init, k);
    }
  }

  // ---------------------------------------------------------------------------
  // The text listing

  const RUNTIME_MARK := "iOS"
  const DASHES := "--"

  /** A runtime header such as "-- iOS 18.0 --". */
  predicate IsHeader(line: string)
  {
    Contains(line, DASHES) && Contains(line, RUNTIME_MARK)
  }

  /** A header's runtime: from "iOS" up to the next "--", trimmed; the current runtime when no "--" follows. */
  function HeaderRuntime(line: string, current: string): string
  {
    match FindSub(line, RUNTIME_MARK)
    case None => current
    case Some(start) =>
      match FindSub(line[start..], DASHES)
      case None => current
      case Some(end) => Trim(line[start..start + end])
  }

  /** The id check: 36 characters, four of them '-'. */
  predicate IsUuidShape(id: string)
  {
    |id| == 36 && CountChar(id, '-') == 4
  }

  /**
   * A device line as written: the name is the trimmed text before the first
   * '(', the id is the trimmed text inside the first parentheses, and the
   * device is booted when the line mentions "Booted".
   */
  function DeviceLineAsWritten(line: string, runtime: string): (r: Option<Device>)
    ensures r.Some? ==> IsUuidShape(r.value.id) && r.value.runtime == runtime
    ensures r.Some? ==> r.value.booted == Contains(Trim(line), BOOTED)
  {
    if !('(' in line && ')' in line) then None
    else
      var t := Trim(line);
      match IndexOf(t, '(')
      case None => None
      case Some(nameEnd) =>
        var name := Trim(t[..nameEnd]);
        match IndexOf(t[nameEnd..], '(')
        case None => None
        case Some(idStart) =>
          var idPart := t[nameEnd + idStart + 1..];
          match IndexOf(idPart, ')')
          case None => None
          case Some(idEnd) =>
            var id := Trim(idPart[..idEnd]);
            if IsUuidShape(id) then Some(Device(id, name, runtime, Contains(t, BOOTED))) else None
  }

  /**
   * A device line, reading the id from the last parenthesised group that
   * holds an id of the expected shape, and the name from the text before it.
   */
  function DeviceLine(line: string, runtime: string): (r: Option<Device>)
    ensures r.Some? ==> IsUuidShape(r.value.id) && r.value.runtime == runtime
    ensures r.Some? ==> r.value.booted == Contains(Trim(line), BOOTED)
  {
    if !('(' in line && ')' in line) then None
    else
      var t := Trim(line);
      match LastIdGroup(t)
      case None => None
      case Some((p, id)) => Some(Device(id, Trim(t[..p]), runtime, Contains(t, BOOTED)))
  }

  /** The trimmed text after `p` up to the first ')', if there is one. */
  function GroupText(t: string, p: nat): Option<string>
    requires p < |t|
  {
    var rest := t[p + 1..];
    match IndexOf(rest, ')')
    case None => None
    case Some(e) => Some(Trim(rest[..e]))
  }

  /** The last '(' whose group holds an id of the expected shape, with that id. */
  function LastIdGroup(t: string): (r: Option<(nat, string)>)
    ensures r.Some? ==> r.value.0 < |t| && t[r.value.0] == '(' && IsUuidShape(r.value.1)
    decreases |t|
  {
    match LastIndexOf(t, '(')
    case None => None
    case Some(p) =>
      var g := GroupText(t, p);
      if g.Some? && IsUuidShape(g.value) then Some((p, g.value))
      else
        var r := LastIdGroup(t[..p]);
        assert r.Some? ==> t[..p][r.value.0] == t[r.value.0];
        r
  }

  // ---------------------------------------------------------------------------
  // Reading a device line

  const OPEN := " ("
  const CLOSE := ")"

  /** The text `simctl` prints for a device: "<name> (<id>) (<state>)". */
  function DeviceText(name: string, id: string, state: string): string
  {
    name + (OPEN + IdTail(id, state))
  }

  function IdTail(id: string, state: string): string
  {
    id + (CLOSE + (OPEN + (state + CLOSE)))
  }

  /** A name carrying a group of its own, as in "iPad Pro 13-inch (M4)". */
  function GroupedName(base: string, group: string): string
  {
    base + (OPEN + (group + CLOSE))
  }

  lemma IndexOfFirst(s: string, c: char, e: nat)
    requires e < |s| && s[e] == c && c !in s[..e]
    ensures IndexOf(s, c) == Some(e)
  {
  }

  lemma LastIndexOfLast(s: string, c: char, e: nat)
    requires e < |s| && s[e] == c && c !in s[e + 1..]
    ensures LastIndexOf(s, c) == Some(e)
  {
  }

  /** Where " (" joins two texts. */
  lemma OpenAt(x: string, y: string)
    ensures (x + (OPEN + y))[|x| + 1] == '('
    ensures (x + (OPEN + y))[..|x| + 1] == x + " "
    ensures (x + (OPEN + y))[|x| + 1..][0] == '('
    ensures (x + (OPEN + y))[|x| + 2..] == y
  {
    assert (x + (OPEN + y))[..|x| + 1] == x + " ";
    assert (x + (OPEN + y))[|x| + 2..] == y;
  }

  /** Where ")" ends a group. */
  lemma GroupEnds(g: string, rest: string)
    requires ')' !in g
    ensures IndexOf(g + (CLOSE + rest), ')') == Some(|g|)
    ensures (g + (CLOSE + rest))[..|g|] == g
  {
    assert (g + (CLOSE + rest))[..|g|] == g;
    IndexOfFirst(g + (CLOSE + rest), ')', |g|);
  }

  /** Text with no whitespace at either end is its own trim. */
  lemma TrimFixed(s: string)
    requires s != [] && !IsWhitespace(s[0]) && !IsWhitespace(s[|s| - 1])
    ensures Trim(s) == s
  {
    assert TrimEnd(s) == s;
  }

  /** Leading indentation goes, and trimmed text stays. */
  lemma {:induction false} TrimIndented(ws: string, body: string)
    requires forall i :: 0 <= i < |ws| ==> IsWhitespace(ws[i])
    requires body != [] && !IsWhitespace(body[0]) && !IsWhitespace(body[|body| - 1])
    ensures Trim(ws + body) == body
    decreases |ws|
  {
    assert (ws + body)[|ws + body| - 1] == body[|body| - 1];
    assert TrimEnd(ws + body) == ws + body;
    if ws == [] {
      assert ws + body == body;
      TrimFixed(body);
    } else {
      assert (ws + body)[1..] == ws[1..] + body;
      TrimIndented(ws[1..], body);
      assert (ws[1..] + body)[|ws[1..] + body| - 1] == body[|body| - 1];
      assert TrimEnd(ws[1..] + body) == ws[1..] + body;
    }
  }

  /** A device line, indented or not, trims to its device text, which holds both '(' and ')'. */
  lemma TrimmedText(ws: string, name: string, id: string, state: string)
    requires forall i :: 0 <= i < |ws| ==> IsWhitespace(ws[i])
    requires name != [] && Trim(name) == name
    ensures Trim(ws + DeviceText(name, id, state)) == DeviceText(name, id, state)
    ensures '(' in ws + DeviceText(name, id, state) && ')' in ws + DeviceText(name, id, state)
  {
    var t := DeviceText(name, id, state);
    assert !IsWhitespace(name[0]);
    assert t[0] == name[0];
    assert t[|t| - 1] == ')';
    TrimIndented(ws, t);
    OpenAt(name, IdTail(id, state));
    assert (ws + t)[|ws| + |name| + 1] == '(';
    assert (ws + t)[|ws + t| - 1] == ')';
  }

  /** A device whose state is "Booted" is listed as booted. */
  lemma BootedText(name: string, id: string)
    ensures Contains(DeviceText(name, id, BOOTED), BOOTED)
  {
    var t := DeviceText(name, id, BOOTED);
    assert t == name + OPEN + id + CLOSE + OPEN + BOOTED + CLOSE;
    ContainsMiddle(name + OPEN + id + CLOSE + OPEN, BOOTED, CLOSE);
  }

  // The reading as written

  /** How the as-written reading goes once the trimmed line, its first '(' and the group after it are known. */
  lemma AsWrittenAt(line: string, t: string, k: nat, g: string, rest: string, runtime: string)
    requires '(' in line && ')' in line && Trim(line) == t
    requires IndexOf(t, '(') == Some(k) && IndexOf(t[k..], '(') == Some(0)
    requires t[k + 1..] == g + (CLOSE + rest) && ')' !in g
    ensures DeviceLineAsWritten(line, runtime)
            == if IsUuidShape(Trim(g)) then Some(Device(Trim(g), Trim(t[..k]), runtime, Contains(t, BOOTED))) else None
  {
    GroupEnds(g, rest);
  }

  /** With no '(' in the name, the first '(' opens the id group, and the text before it trims to the name. */
  lemma FirstGroup(name: string, rest: string)
    requires Trim(name) == name && '(' !in name
    ensures IndexOf(name + (OPEN + rest), '(') == Some(|name| + 1)
    ensures Trim((name + (OPEN + rest))[..|name| + 1]) == name
  {
    OpenAt(name, rest);
    IndexOfFirst(name + (OPEN + rest), '(', |name| + 1);
    TrimSpaceAfter(name);
  }

  /**
   * As written, a name without '(' reads back: the first group is the id.
   * The device is booted when the line mentions "Booted", as a booted state does.
   */
  lemma DeviceLineAsWrittenRead(ws: string, name: string, id: string, state: string, runtime: string)
    requires forall i :: 0 <= i < |ws| ==> IsWhitespace(ws[i])
    requires name != [] && Trim(name) == name && '(' !in name
    requires IsUuidShape(id) && Trim(id) == id && ')' !in id
    ensures DeviceLineAsWritten(ws + DeviceText(name, id, state), runtime)
            == Some(Device(id, name, runtime, Contains(DeviceText(name, id, state), BOOTED)))
  {
    TrimmedText(ws, name, id, state);
    FirstGroup(name, IdTail(id, state));
    OpenAt(name, IdTail(id, state));
    AsWrittenAt(ws + DeviceText(name, id, state), DeviceText(name, id, state), |name| + 1, id, OPEN + (state + CLOSE), runtime);
  }

  /** The device text of a grouped name, with the name's own group first. */
  lemma GroupedText(base: string, group: string, id: string, state: string)
    ensures DeviceText(GroupedName(base, group), id, state) == base + (OPEN + (group + (CLOSE + (OPEN + IdTail(id, state)))))
  {
  }

  /** A text " (" joins to one ending in ')' is trimmed and holds both '(' and ')'. */
  lemma OpenTrim(x: string, y: string)
    requires x != [] && !IsWhitespace(x[0]) && y != [] && y[|y| - 1] == ')'
    ensures var u := x + (OPEN + y); '(' in u && ')' in u && Trim(u) == u
  {
    LastOfAppend(OPEN, y);
    TrimJoined(x, OPEN + y);
    OpenAt(x, y);
    LastOfAppend(x, OPEN + y);
  }

  /** As written, a name holding a group such as "(M4)" makes that group the id, and the device is dropped. */
  lemma DeviceLineAsWrittenDropsGroupInName(base: string, group: string, id: string, state: string, runtime: string)
    requires base != [] && Trim(base) == base && '(' !in base
    requires ')' !in group && !IsUuidShape(Trim(group))
    ensures DeviceLineAsWritten(DeviceText(GroupedName(base, group), id, state), runtime) == None
  {
    var rest := OPEN + IdTail(id, state);
    var t := base + (OPEN + (group + (CLOSE + rest)));
    GroupedText(base, group, id, state);
    IdTailEnds(id, state);
    LastOfAppend(OPEN, IdTail(id, state));
    GroupedFacts(base, group, rest);
    AsWrittenAt(t, t, |base| + 1, group, rest, runtime);
  }

  /** The trimmed text and its first group, for a name without '(' followed by a group and more. */
  lemma GroupedFacts(base: string, group: string, rest: string)
    requires base != [] && Trim(base) == base && '(' !in base
    requires rest != [] && rest[|rest| - 1] == ')'
    ensures var t := base + (OPEN + (group + (CLOSE + rest)));
            '(' in t && ')' in t && Trim(t) == t &&
            IndexOf(t, '(') == Some(|base| + 1) && IndexOf(t[|base| + 1..], '(') == Some(0) &&
            t[|base| + 2..] == group + (CLOSE + rest)
  {
    var y := group + (CLOSE + rest);
    TrimmedStart(base);
    LastOfAppend(CLOSE, rest);
    LastOfAppend(group, CLOSE + rest);
    OpenTrim(base, y);
    FirstGroup(base, y);
    OpenAt(base, y);
  }

  lemma IdTailEnds(id: string, state: string)
    ensures IdTail(id, state) != [] && IdTail(id, state)[|IdTail(id, state)| - 1] == ')'
  {
    LastOfAppend(state, CLOSE);
    LastOfAppend(OPEN, state + CLOSE);
    LastOfAppend(CLOSE, OPEN + (state + CLOSE));
    LastOfAppend(id, CLOSE + (OPEN + (state + CLOSE)));
  }

  const MODEL_NAME := "iPad Pro 13-inch"
  const MODEL_GROUP := "M4"
  const SHUTDOWN := "Shutdown"

  /** What the example name holds, and what it does not. */
  lemma ExampleName()
    ensures MODEL_NAME != [] && Trim(MODEL_NAME) == MODEL_NAME && '(' !in MODEL_NAME
  {
    TrimFixed(MODEL_NAME);
  }

  /** The model group is not an id. */
  lemma ExampleGroup()
    ensures ')' !in MODEL_GROUP && !IsUuidShape(Trim(MODEL_GROUP))
  {
    ShortNotId(MODEL_GROUP);
  }

  /** The state holds no parenthesis. */
  lemma ExampleStatePlain()
    ensures '(' !in SHUTDOWN && ')' !in SHUTDOWN
  {
  }

  /** The state is not an id. */
  lemma ExampleState()
    ensures !IsUuidShape(Trim(SHUTDOWN))
  {
    ShortNotId(SHUTDOWN);
  }

  lemma ShortNotId(s: string)
    requires |s| < 36
    ensures !IsUuidShape(Trim(s))
  {
    assert |TrimEnd(s)| <= |s|;
  }

  /** As written, "iPad Pro 13-inch (M4)" is not listed, though its line carries a well-formed id. */
  lemma GroupedNameDropped(id: string, runtime: string)
    requires IsUuidShape(id)
    ensures DeviceLineAsWritten(DeviceText(GroupedName(MODEL_NAME, MODEL_GROUP), id, SHUTDOWN), runtime) == None
  {
    ExampleName();
    ExampleGroup();
    DeviceLineAsWrittenDropsGroupInName(MODEL_NAME, MODEL_GROUP, id, SHUTDOWN, runtime);
  }

  // The corrected reading

  /** The group opened at `p` holds the text up to the first ')' after it. */
  lemma GroupTextOf(t: string, p: nat, g: string, rest: string)
    requires p < |t| && t[p + 1..] == g + (CLOSE + rest) && ')' !in g
    ensures GroupText(t, p) == Some(Trim(g))
  {
    GroupEnds(g, rest);
  }

  /** The last '(' opens an id group: it is the one found. */
  lemma LastIdGroupHit(t: string, p: nat)
    requires LastIndexOf(t, '(') == Some(p)
    requires GroupText(t, p).Some? && IsUuidShape(GroupText(t, p).value)
    ensures LastIdGroup(t) == Some((p, GroupText(t, p).value))
  {
  }

  /** The last '(' opens no id group: the search goes on before it. */
  lemma LastIdGroupSkip(t: string, p: nat)
    requires LastIndexOf(t, '(') == Some(p)
    requires !(GroupText(t, p).Some? && IsUuidShape(GroupText(t, p).value))
    ensures LastIdGroup(t) == LastIdGroup(t[..p])
  {
  }

  /** A last group that holds no id is passed over. */
  lemma SkipGroup(t: string, p: nat, g: string, head: string)
    requires LastIndexOf(t, '(') == Some(p) && t[p + 1..] == g + (CLOSE + []) && t[..p] == head
    requires ')' !in g && !IsUuidShape(Trim(g))
    ensures LastIdGroup(t) == LastIdGroup(head)
  {
    GroupTextOf(t, p, g, []);
    LastIdGroupSkip(t, p);
  }

  /** The text before the state group. */
  function IdHead(name: string, id: string): string
  {
    name + (OPEN + (id + (CLOSE + " ")))
  }

  /** The last '(' of a device text opens the state group. */
  lemma StateGroupAt(name: string, id: string, state: string)
    requires '(' !in state
    ensures LastIndexOf(DeviceText(name, id, state), '(') == Some(|name| + |id| + 4)
    ensures DeviceText(name, id, state)[|name| + |id| + 5..] == state + (CLOSE + [])
    ensures DeviceText(name, id, state)[..|name| + |id| + 4] == IdHead(name, id)
  {
    var t := DeviceText(name, id, state);
    var p := |name| + |id| + 4;
    assert t[p] == '(';
    assert t[p + 1..] == state + (CLOSE + []);
    LastIndexOfLast(t, '(', p);
  }

  /** The state group holds no id, so the search goes on before it. */
  lemma StateGroupSkipped(name: string, id: string, state: string)
    requires '(' !in state && ')' !in state && !IsUuidShape(Trim(state))
    ensures LastIdGroup(DeviceText(name, id, state)) == LastIdGroup(IdHead(name, id))
  {
    StateGroupAt(name, id, state);
    SkipGroup(DeviceText(name, id, state), |name| + |id| + 4, state, IdHead(name, id));
  }

  /** Before the state group, the last '(' opens the id group. */
  lemma IdGroupAt(name: string, id: string)
    requires '(' !in id && ')' !in id
    ensures LastIndexOf(IdHead(name, id), '(') == Some(|name| + 1)
    ensures GroupText(IdHead(name, id), |name| + 1) == Some(Trim(id))
  {
    var head := IdHead(name, id);
    var q := |name| + 1;
    OpenAt(name, id + (CLOSE + " "));
    LastIndexOfLast(head, '(', q);
    GroupTextOf(head, q, id, " ");
  }

  lemma IdGroupFound(name: string, id: string)
    requires IsUuidShape(id) && Trim(id) == id && '(' !in id && ')' !in id
    ensures LastIdGroup(IdHead(name, id)) == Some((|name| + 1, id))
  {
    IdGroupAt(name, id);
    LastIdGroupHit(IdHead(name, id), |name| + 1);
  }

  /** How the corrected reading goes once the trimmed line and its id group are known. */
  lemma DeviceLineAt(line: string, t: string, p: nat, id: string, runtime: string)
    requires '(' in line && ')' in line && Trim(line) == t && LastIdGroup(t) == Some((p, id))
    ensures DeviceLine(line, runtime) == Some(Device(id, Trim(t[..p]), runtime, Contains(t, BOOTED)))
  {
  }

  /**
   * A device line reads back whatever its name holds, as long as the state
   * group is not itself an id: the id comes from the last id-shaped group.
   */
  lemma DeviceLineRead(ws: string, name: string, id: string, state: string, runtime: string)
    requires forall i :: 0 <= i < |ws| ==> IsWhitespace(ws[i])
    requires name != [] && Trim(name) == name
    requires IsUuidShape(id) && Trim(id) == id && '(' !in id && ')' !in id
    requires '(' !in state && ')' !in state && !IsUuidShape(Trim(state))
    ensures DeviceLine(ws + DeviceText(name, id, state), runtime)
            == Some(Device(id, name, runtime, Contains(DeviceText(name, id, state), BOOTED)))
  {
    TrimmedText(ws, name, id, state);
    StateGroupSkipped(name, id, state);
    IdGroupFound(name, id);
    OpenAt(name, IdTail(id, state));
    TrimSpaceAfter(name);
    DeviceLineAt(ws + DeviceText(name, id, state), DeviceText(name, id, state), |name| + 1, id, runtime);
  }

  /** The last character of a concatenation comes from its right part. */
  lemma LastOfAppend(a: string, b: string)
    requires b != []
    ensures (a + b)[|a + b| - 1] == b[|b| - 1]
  {
  }

  /** Text starting with no whitespace, followed by text ending in ')', is trimmed. */
  lemma TrimJoined(x: string, y: string)
    requires x != [] && !IsWhitespace(x[0]) && y != [] && y[|y| - 1] == ')'
    ensures Trim(x + y) == x + y
  {
    assert (x + y)[0] == x[0];
    LastOfAppend(x, y);
    TrimFixed(x + y);
  }

  /** Trimmed text starts with no whitespace. */
  lemma TrimmedStart(x: string)
    requires x != [] && Trim(x) == x
    ensures !IsWhitespace(x[0])
  {
  }

  /** A grouped name is trimmed when its base is. */
  lemma GroupedNameTrimmed(base: string, group: string)
    requires base != [] && Trim(base) == base
    ensures GroupedName(base, group) != [] && Trim(GroupedName(base, group)) == GroupedName(base, group)
  {
    TrimmedStart(base);
    LastOfAppend(group, CLOSE);
    LastOfAppend(OPEN, group + CLOSE);
    TrimJoined(base, OPEN + (group + CLOSE));
  }

  /** The corrected reading lists "iPad Pro 13-inch (M4)" under its full name. */
  lemma GroupedNameListed(id: string, runtime: string)
    requires IsUuidShape(id) && Trim(id) == id && '(' !in id && ')' !in id
    ensures var name := GroupedName(MODEL_NAME, MODEL_GROUP);
            DeviceLine(DeviceText(name, id, SHUTDOWN), runtime)
            == Some(Device(id, name, runtime, Contains(DeviceText(name, id, SHUTDOWN), BOOTED)))
  {
    ExampleName();
    ExampleStatePlain();
    ExampleState();
    GroupedNameTrimmed(MODEL_NAME, MODEL_GROUP);
    var name := GroupedName(MODEL_NAME, MODEL_GROUP);
    DeviceLineRead([], name, id, SHUTDOWN, runtime);
    assert [] + DeviceText(name, id, SHUTDOWN) == DeviceText(name, id, SHUTDOWN);
  }

  datatype Scan = Scan(devices: seq<Device>, runtime: string)

  /** One line of the listing: a header sets the runtime, a device line adds a device. */
  function Step(st: Scan, line: string): Scan
  {
    if IsHeader(line) then Scan(st.devices, HeaderRuntime(line, st.runtime))
    else
      match DeviceLine(line, st.runtime)
      case Some(d) => Scan(st.devices + [d], st.runtime)
      case None => st
  }

  function ScanFrom(st: Scan, ls: seq<string>): Scan
  {
    if ls == [] then st else Step(ScanFrom(st, ls[..|ls| - 1]), ls[|ls| - 1])
  }

  function ScanListing(output: string): Scan
  {
    ScanFrom(Scan([], ""), Lines(output))
  }

  /** The parsing loop of `list_available_devices_legacy`, with its current runtime. */
  method ParseListing(output: string) returns (devices: seq<Device>)
    ensures devices == ScanListing(output).devices
  {
    var ls := Lines(output);
    devices := [];
    var currentRuntime := "";
    for i := 0 to |ls|
      invariant Scan(devices, currentRuntime) == ScanFrom(Scan([], ""), ls[..i])
    {
      var line := ls[i];
      assert ls[..i + 1][..i] == ls[..i];
      if IsHeader(line) {
        currentRuntime := HeaderRuntime(line, currentRuntime);
      } else {
        var d := DeviceLine(line, currentRuntime);
        if d.Some? {
          devices := devices + [d.value];
        }
      }
    }
    assert ls[..|ls|] == ls;
  }

  lemma {:induction false} ScanFromConcat(st: Scan, a: seq<string>, b: seq<string>)
    ensures ScanFrom(st, a + b) == ScanFrom(ScanFrom(st, a), b)
    decreases |b|
  {
    if b == [] {
      assert a + b == a;
    } else {
      assert (a + b)[..|a + b| - 1] == a + b[..|b| - 1];
      ScanFromConcat(st, a, b[..|b| - 1]);
    }
  }

  /** What one step can do: set the runtime at a header, or append one checked device carrying the runtime in force. */
  lemma StepShape(st: Scan, line: string)
    ensures IsHeader(line) ==> Step(st, line).devices == st.devices
    ensures !IsHeader(line) ==> Step(st, line).runtime == st.runtime
    ensures var n := Step(st, line).devices;
            n == st.devices ||
            (|n| == |st.devices| + 1 && n[..|st.devices|] == st.devices &&
             n[|st.devices|].runtime == st.runtime && IsUuidShape(n[|st.devices|].id))
  {
    if !IsHeader(line) {
      var d := DeviceLine(line, st.runtime);
      if d.Some? {
        assert (st.devices + [d.value])[..|st.devices|] == st.devices;
      }
    }
  }

  /** Below a header and before the next one, every device gets the runtime in force, and no earlier device changes. */
  lemma {:induction false} ScanKeepsRuntime(st: Scan, ls: seq<string>)
    requires forall i :: 0 <= i < |ls| ==> !IsHeader(ls[i])
    ensures ScanFrom(st, ls).runtime == st.runtime
    ensures |ScanFrom(st, ls).devices| >= |st.devices| && ScanFrom(st, ls).devices[..|st.devices|] == st.devices
    ensures forall k :: |st.devices| <= k < |ScanFrom(st, ls).devices| ==> ScanFrom(st, ls).devices[k].runtime == st.runtime
    decreases |ls|
  {
    if ls != [] {
      var init := ls[..|ls| - 1];
      assert forall i :: 0 <= i < |init| ==> !IsHeader(init[i]) by {
        forall i | 0 <= i < |init| ensures !IsHeader(init[i]) {
          assert init[i] == ls[i];
        }
      }
      ScanKeepsRuntime(st, init);
      var prev := ScanFrom(st, init);
      StepShape(prev, ls[|ls| - 1]);
      var next := Step(prev, ls[|ls| - 1]);
      assert ScanFrom(st, ls) == next;
      if next.devices != prev.devices {
        assert next.devices[..|st.devices|] == next.devices[..|prev.devices|][..|st.devices|];
      }
    }
  }

  /** Every listed device passed the id check. */
  lemma {:induction false} ScanIdsShaped(st: Scan, ls: seq<string>)
    requires forall k :: 0 <= k < |st.devices| ==> IsUuidShape(st.devices[k].id)
    ensures forall k :: 0 <= k < |ScanFrom(st, ls).devices| ==> IsUuidShape(ScanFrom(st, ls).devices[k].id)
    decreases |ls|
  {
    if ls != [] {
      ScanIdsShaped(st, ls[..|ls| - 1]);
      var prev := ScanFrom(st, ls[..|ls| - 1]);
      StepShape(prev, ls[|ls| - 1]);
      var next := Step(prev, ls[|ls| - 1]);
      assert ScanFrom(st, ls) == next;
      if next.devices != prev.devices {
        forall k | 0 <= k < |next.devices| ensures IsUuidShape(next.devices[k].id) {
          if k < |prev.devices| {
            assert next.devices[k] == next.devices[..|prev.devices|][k];
          }
        }
      }
    }
  }

  function HeaderLine(runtime: string): string
  {
    "-- " + runtime + " --"
  }

  /** The standard header "-- <runtime> --" sets that runtime. */
  lemma HeaderRead(runtime: string, current: string)
    requires StartsWith(runtime, RUNTIME_MARK) && '-' !in runtime && Trim(runtime) == runtime
    ensures IsHeader(HeaderLine(runtime))
    ensures HeaderRuntime(HeaderLine(runtime), current) == runtime
  {
    var line := HeaderLine(runtime);
    HeaderFindsMark(runtime);
    HeaderFindsDashes(runtime);
    var tail := line[3..3 + |runtime| + 1];
    assert tail == runtime + " ";
    TrimSpaceAfter(runtime);
    assert Trim(tail) == runtime;
    assert line[..2] == DASHES;
    ContainsFound(line, DASHES, 0);
  }

  lemma HeaderFindsDashes(runtime: string)
    requires '-' !in runtime
    ensures FindSub(HeaderLine(runtime)[3..], DASHES) == Some(|runtime| + 1)
  {
    assert HeaderLine(runtime)[3..] == (runtime + " ") + DASHES;
    DashesAfter(runtime + " ");
  }

  lemma HeaderFindsMark(runtime: string)
    requires StartsWith(runtime, RUNTIME_MARK)
    ensures FindSub(HeaderLine(runtime), RUNTIME_MARK) == Some(3)
  {
    var line := HeaderLine(runtime);
    assert line[3..][..3] == runtime[..3];
    assert FindSub(line[3..], RUNTIME_MARK) == Some(0);
    assert line[2] == ' ' && line[1] == '-' && line[0] == '-';
    assert line[2..][1..] == line[3..];
    assert FindSub(line[2..], RUNTIME_MARK) == Some(1);
    assert line[1..][1..] == line[2..];
    assert FindSub(line[1..], RUNTIME_MARK) == Some(2);
  }

  lemma {:induction false} DashesAfter(x: string)
    requires '-' !in x
    ensures FindSub(x + DASHES, DASHES) == Some(|x|)
    decreases |x|
  {
    if x == [] {
      assert x + DASHES == DASHES;
    } else {
      assert !StartsWith(x + DASHES, DASHES) by {
        assert (x + DASHES)[0] == x[0];
      }
      assert (x + DASHES)[1..] == x[1..] + DASHES;
      DashesAfter(x[1..]);
    }
  }

  lemma ContainsFound(s: string, sub: string, i: nat)
    requires i + |sub| <= |s| && s[i..i + |sub|] == sub
    ensures Contains(s, sub)
  {
    ContainsMiddle(s[..i], sub, s[i + |sub|..]);
    assert s == s[..i] + sub + s[i + |sub|..];
  }

  /** Text already trimmed and followed by a space trims back to itself. */
  lemma TrimSpaceAfter(x: string)
    requires Trim(x) == x
    ensures Trim(x + " ") == x
  {
    assert TrimEnd(x + " ") == TrimEnd(x) by {
      assert (x + " ")[..|x + " "| - 1] == x;
    }
    if x != [] {
      assert !IsWhitespace(x[|x| - 1]);
      assert TrimEnd(x) == x;
      assert !IsWhitespace(x[0]);
    }
  }

  // ---------------------------------------------------------------------------
  // Order: booted devices first, then by name

  /** The comparator of `sort_by`: a booted device before a shut-down one, otherwise by name. */
  predicate DeviceLt(a: Device, b: Device)
  {
    (a.booted && !b.booted) || (a.booted == b.booted && StrLt(a.name, b.name))
  }

  predicate DeviceLe(a: Device, b: Device)
  {
    !DeviceLt(b, a)
  }

  lemma DeviceLtLe(a: Device, b: Device)
    requires DeviceLt(a, b)
    ensures DeviceLe(a, b)
  {
    StrLtAsymmetric(a.name, b.name);
  }

  lemma DeviceLeTransitive(a: Device, b: Device, c: Device)
    requires DeviceLe(a, b) && DeviceLe(b, c)
    ensures DeviceLe(a, c)
  {
    if a.booted == b.booted && b.booted == c.booted {
      StrLeTransitive(a.name, b.name, c.name);
    }
  }

  /** Any two devices are ordered one way or the other. */
  lemma DeviceLeTotal(a: Device, b: Device)
    ensures DeviceLe(a, b) || DeviceLe(b, a)
  {
    StrLtAsymmetric(a.name, b.name);
  }

  predicate Sorted(s: seq<Device>)
  {
    forall p, q :: 0 <= p < q < |s| ==> DeviceLe(s[p], s[q])
  }

  /** A sorted list has its booted devices first, and devices of the same state in name order. */
  lemma SortedMeaning(s: seq<Device>, p: nat, q: nat)
    requires Sorted(s) && p < q < |s|
    ensures s[q].booted ==> s[p].booted
    ensures s[p].booted == s[q].booted ==> StrLe(s[p].name, s[q].name)
  {
    assert DeviceLe(s[p], s[q]);
  }

  /** The in-place sort of the device list, by insertion. */
  method SortDevices(a: array<Device>)
    modifies a
    ensures Sorted(a[..])
    ensures multiset(a[..]) == multiset(old(a[..]))
  {
    var i := 0;
    while i < a.Length
      invariant 0 <= i <= a.Length
      invariant Sorted(a[..i])
      invariant multiset(a[..]) == multiset(old(a[..]))
    {
      Insert(a, i);
      i := i + 1;
    }
    assert a[..a.Length] == a[..];
  }

  /** Moves `a[i]` down into the sorted prefix `a[..i]`. */
  method Insert(a: array<Device>, i: nat)
    requires i < a.Length && Sorted(a[..i])
    modifies a
    ensures Sorted(a[..i + 1])
    ensures multiset(a[..]) == multiset(old(a[..]))
  {
    var j := i;
    while j > 0 && DeviceLt(a[j], a[j - 1])
      invariant 0 <= j <= i
      invariant forall p, q :: 0 <= p < q <= i && p != j && q != j ==> DeviceLe(a[p], a[q])
      invariant forall q :: j < q <= i ==> DeviceLe(a[j], a[q])
      invariant multiset(a[..]) == multiset(old(a[..]))
    {
      DeviceLtLe(a[j], a[j - 1]);
      a[j - 1], a[j] := a[j], a[j - 1];
      j := j - 1;
    }
    if j > 0 {
      DeviceLeTotal(a[j], a[j - 1]);
      forall p | 0 <= p < j
        ensures DeviceLe(a[p], a[j])
      {
        if p < j - 1 {
          DeviceLeTransitive(a[p], a[j - 1], a[j]);
        }
      }
    }
  }

  // ---------------------------------------------------------------------------
  // Listing

  /** How the `simctl --json` call ended: it could not start, or it exited, with its parsed output if that was JSON. */
  datatype JsonCall = NotStarted | Exited(success: bool, json: Option<Json.Value>)

  const LIST_FAILED := "Failed to list devices"
  const PARSE_FAILED := "Failed to parse device list JSON"

  /** `list_available_devices_legacy`: the text listing, parsed and sorted. */
  method ListLegacy(output: Result<string>) returns (r: Result<seq<Device>>)
    ensures output.Err? ==> r == Err(LIST_FAILED)
    ensures output.Ok? ==> r.Ok? && Sorted(r.value)
    ensures output.Ok? ==> multiset(r.value) == multiset(ScanListing(output.value).devices)
  {
    if output.Err? {
      return Err(LIST_FAILED);
    }
    var devices := ParseListing(output.value);
    var sorted := SortedCopy(devices);
    return Ok(sorted);
  }

  /** `list_available_devices`: the JSON listing, or the text listing when the call exits with a failure. */
  method ListDevices(call: JsonCall, legacy: Result<string>) returns (r: Result<seq<Device>>)
    ensures call.NotStarted? ==> r == Err(LIST_FAILED)
    ensures call.Exited? && !call.success ==> (r.Ok? <==> legacy.Ok?)
    ensures call.Exited? && !call.success && legacy.Ok? ==> multiset(r.value) == multiset(ScanListing(legacy.value).devices)
    ensures call.Exited? && call.success && call.json.None? ==> r == Err(PARSE_FAILED)
    ensures call.Exited? && call.success && call.json.Some? ==> r.Ok? && multiset(r.value) == multiset(JsonDevices(call.json.value))
    ensures r.Ok? ==> Sorted(r.value)
  {
    if call.NotStarted? {
      return Err(LIST_FAILED);
    }
    if !call.success {
      r := ListLegacy(legacy);
      return;
    }
    if call.json.None? {
      return Err(PARSE_FAILED);
    }
    var devices := JsonDevices(call.json.value);
    var sorted := SortedCopy(devices);
    return Ok(sorted);
  }

  /** The list sorted in an array of its own. */
  method SortedCopy(devices: seq<Device>) returns (sorted: seq<Device>)
    ensures Sorted(sorted) && multiset(sorted) == multiset(devices)
  {
    var a := new Device[|devices|](k requires 0 <= k < |devices| => devices[k]);
    assert a[..] == devices;
    SortDevices(a);
    sorted := a[..];
  }

  // ---------------------------------------------------------------------------
  // Choosing a device

  const USIZE_MAX: nat := 0xFFFF_FFFF_FFFF_FFFF
  const NO_DEVICES := "No iOS devices or simulators found. Please create a simulator or connect a device."
  const NOT_A_NUMBER := "Invalid selection. Please enter a number."

  function OutOfRange(count: nat): string
  {
    "Invalid selection. Please choose a number between 1 and " + NatToString(count)
  }

  /** The device the user's line picks, counting from 1, or why it picks none. */
  function SelectDevice(devices: seq<Device>, input: string): (r: Result<Device>)
    ensures devices == [] ==> r == Err(NO_DEVICES)
    ensures devices != [] && ParseUnsigned(Trim(input), USIZE_MAX).None? ==> r == Err(NOT_A_NUMBER)
    ensures r.Ok? <==> devices != [] && ParseUnsigned(Trim(input), USIZE_MAX).Some? &&
                       1 <= ParseUnsigned(Trim(input), USIZE_MAX).value <= |devices|
    ensures r.Ok? ==> r.value == devices[ParseUnsigned(Trim(input), USIZE_MAX).value - 1]
    ensures r.Err? && r.msg != NO_DEVICES && r.msg != NOT_A_NUMBER ==> r.msg == OutOfRange(|devices|)
  {
    if devices == [] then Err(NO_DEVICES)
    else
      match ParseUnsigned(Trim(input), USIZE_MAX)
      case None => Err(NOT_A_NUMBER)
      case Some(n) =>
        if n < 1 || n > |devices| then Err(OutOfRange(|devices|)) else Ok(devices[n - 1])
  }

  /** Typing the number shown beside a device selects that device (a list's length fits in `usize`). */
  lemma SelectShownNumber(devices: seq<Device>, k: nat, ws: string)
    requires 1 <= k <= |devices| <= USIZE_MAX
    requires forall i :: 0 <= i < |ws| ==> IsWhitespace(ws[i])
    ensures SelectDevice(devices, ws + NatToString(k)) == Ok(devices[k - 1])
  {
    DigitsTrimmed(ws, NatToString(k));
    ParseNatToString(k, USIZE_MAX);
  }

  /** A number outside 1..count is refused with the range in the message. */
  lemma SelectOutOfRange(devices: seq<Device>, k: nat)
    requires devices != [] && (k == 0 || k > |devices|) && k <= USIZE_MAX
    ensures SelectDevice(devices, NatToString(k)) == Err(OutOfRange(|devices|))
  {
    DigitsTrimmed([], NatToString(k));
    assert [] + NatToString(k) == NatToString(k);
    ParseNatToString(k, USIZE_MAX);
  }

  lemma DigitsTrimmed(ws: string, d: string)
    requires forall i :: 0 <= i < |ws| ==> IsWhitespace(ws[i])
    requires d != [] && forall i :: 0 <= i < |d| ==> IsDigit(d[i])
    ensures Trim(ws + d) == d
  {
    assert IsDigit(d[0]) && IsDigit(d[|d| - 1]);
    TrimIndented(ws, d);
  }
}
