/** Host PCI addresses in environment variables, rewritten to the guest's. */
module EnvPci {
  import opened Wrappers
  import opened Separators
  import opened Pci

  datatype Fault = Malformed | Unparsable | Unmapped

  type PciMap = map<Address, Address>

  const PREFIX := "PCIDEVICE_"

  function Find(s: string, c: char): Option<nat> {
    if s == [] then None
    else if s[0] == c then Some(0)
    else
      var rest := Find(s[1..], c);
      if rest.None? then None else Some(1 + rest.value)
  }

  lemma {:induction false} FindMeans(s: string, c: char)
    ensures match Find(s, c)
            case None => c !in s
            case Some(i) => i < |s| && s[i] == c && c !in s[..i]
  {
    if s != [] && s[0] != c {
      FindMeans(s[1..], c);
      assert s == [s[0]] + s[1..];
      if Find(s, c).Some? {
        assert s[..Find(s, c).value] == [s[0]] + s[1..][..Find(s, c).value - 1];
      }
    }
  }

  lemma {:induction false} FindIs(s: string, c: char, i: nat)
    requires i < |s| && s[i] == c && c !in s[..i]
    ensures Find(s, c) == Some(i)
  {
    if i > 0 {
      assert s[..i][0] == s[0] && s[..i][1..] == s[1..][..i - 1];
      FindIs(s[1..], c, i - 1);
    }
  }

  function Guest(text: string, m: PciMap): Result<string, Fault> {
    var host := ParseAddress(text);
    if host.None? then Err(Unparsable)
    else if host.value !in m then Err(Unmapped)
    else Ok(PrintAddress(m[host.value]))
  }

  function Guests(tokens: seq<string>, m: PciMap): Result<seq<string>, Fault> {
    if tokens == [] then Ok([])
    else
      var n := |tokens| - 1;
      var front := Guests(tokens[..n], m);
      if front.Err? then front
      else
        var last := Guest(tokens[n], m);
        if last.Err? then Err(last.error) else Ok(front.value + [last.value])
  }

  /** An entry's name and value, split at its first equals sign. */
  function Parts(entry: string): Option<(string, string)> {
    FindMeans(entry, '=');
    var eq := Find(entry, '=');
    if eq.None? then None else Some((entry[..eq.value], entry[eq.value + 1..]))
  }

  function Translated(entry: string, m: PciMap): Result<string, Fault> {
    var parts := Parts(entry);
    if parts.None? then Err(Malformed)
    else if !(PREFIX <= parts.value.0) then Ok(entry)
    else
      var gs := Guests(Split(parts.value.1, ','), m);
      if gs.Err? then Err(gs.error) else Ok(parts.value.0 + "=" + Join(gs.value, ','))
  }

  ghost predicate Good(m: PciMap) {
    forall a <- m :: m[a].Valid()
  }

  /** The address a piece of text stands for is known to the map. */
  predicate Mapped(text: string, m: PciMap) {
    ParseAddress(text).Some? && ParseAddress(text).value in m
  }

  ghost predicate AllMapped(tokens: seq<string>, m: PciMap) {
    forall i :: 0 <= i < |tokens| ==> Mapped(tokens[i], m)
  }

  lemma {:induction false} GuestsMean(tokens: seq<string>, m: PciMap)
    requires Good(m)
    ensures Guests(tokens, m).Ok? <==> AllMapped(tokens, m)
    ensures Guests(tokens, m).Ok? ==>
      var gs := Guests(tokens, m).value;
      && |gs| == |tokens| && Clear(gs, ',')
      && forall i :: 0 <= i < |gs| ==>
        Mapped(tokens[i], m) && ParseAddress(gs[i]) == Some(m[ParseAddress(tokens[i]).value])
  {
    hide ParseAddress, PrintAddress;
    if tokens != [] {
      var n := |tokens| - 1;
      GuestsMean(tokens[..n], m);
      if Mapped(tokens[n], m) {
        AddressRoundTrip(m[ParseAddress(tokens[n]).value]);
      }
    }
  }

  ghost predicate Image(was: string, now: string, m: PciMap) {
    var hs, gs := Split(was, ','), Split(now, ',');
    && |gs| == |hs|
    && forall i :: 0 <= i < |gs| ==> Mapped(hs[i], m) && ParseAddress(gs[i]) == Some(m[ParseAddress(hs[i]).value])
  }

  /** The first equals sign divides an entry, and only one without any cannot be divided. */
  lemma PartsMean(entry: string)
    ensures Parts(entry).None? <==> '=' !in entry
    ensures Parts(entry).Some? ==>
      var (name, value) := Parts(entry).value; '=' !in name && entry == name + "=" + value
  {
    FindMeans(entry, '=');
  }

  /** The first piece of text that names no mapped address decides the fault. */
  lemma {:induction false} GuestsFail(tokens: seq<string>, m: PciMap) returns (k: nat)
    requires Guests(tokens, m).Err?
    ensures k < |tokens| && !Mapped(tokens[k], m) && forall i :: 0 <= i < k ==> Mapped(tokens[i], m)
    ensures Guests(tokens, m) == Err(if ParseAddress(tokens[k]).None? then Unparsable else Unmapped)
  {
    hide ParseAddress, PrintAddress;
    var n := |tokens| - 1;
    if Guests(tokens[..n], m).Err? {
      k := GuestsFail(tokens[..n], m);
    } else {
      k := n;
      AllGuests(tokens[..n], m);
    }
  }

  lemma {:induction false} AllGuests(tokens: seq<string>, m: PciMap)
    requires Guests(tokens, m).Ok?
    ensures AllMapped(tokens, m)
  {
    hide ParseAddress, PrintAddress;
    if tokens != [] {
      AllGuests(tokens[..|tokens| - 1], m);
    }
  }

  lemma PartsJoin(name: string, value: string)
    requires '=' !in name
    ensures Parts(name + "=" + value) == Some((name, value))
  {
    var s := name + "=" + value;
    assert s[..|name|] == name && s[|name| + 1..] == value;
    FindIs(s, '=', |name|);
  }

  /** A rewritten entry keeps its name, and its value lists the guest's address for each of the host's, in order. */
  lemma TranslatedMeans(entry: string, m: PciMap)
    requires Good(m)
    ensures var parts := Parts(entry);
            && (Translated(entry, m).Ok? <==>
                  parts.Some? && (PREFIX <= parts.value.0 ==> AllMapped(Split(parts.value.1, ','), m)))
            && (Translated(entry, m).Ok? && !(PREFIX <= parts.value.0) ==> Translated(entry, m).value == entry)
            && (Translated(entry, m).Ok? && PREFIX <= parts.value.0 ==>
                  var now := Parts(Translated(entry, m).value);
                  now.Some? && now.value.0 == parts.value.0 && Image(parts.value.1, now.value.1, m))
            && (Translated(entry, m) == Err(Malformed) <==> parts.None?)
  {
    hide Split, Join, Mapped, AllMapped, ParseAddress, Guests, Find;
    FindMeans(entry, '=');
    var parts := Parts(entry);
    if parts.Some? && PREFIX <= parts.value.0 {
      var hs := Split(parts.value.1, ',');
      GuestsMean(hs, m);
      if Guests(hs, m).Ok? {
        var gs := Guests(hs, m).value;
        SplitJoin(gs, ',');
        PartsJoin(parts.value.0, Join(gs, ','));
      } else {
        var _ := GuestsFail(hs, m);
      }
    }
  }

  method TranslateValue(value: string, m: PciMap) returns (r: Result<seq<string>, Fault>)
    ensures r == Guests(Split(value, ','), m)
  {
    hide Guest, Split;
    var tokens := Split(value, ',');
    var guests: seq<string> := [];
    assert tokens[..|tokens|] == tokens;
    for i := 0 to |tokens|
      invariant Guests(tokens[..i], m) == Ok(guests)
    {
      assert tokens[..i + 1][..i] == tokens[..i];
      var g := Guest(tokens[i], m);
      if g.Err? {
        FirstFault(tokens, i, m);
        return Err(g.error);
      }
      guests := guests + [g.value];
    }
    r := Ok(guests);
  }

  lemma {:induction false} FirstFault(tokens: seq<string>, i: nat, m: PciMap)
    requires i < |tokens| && Guests(tokens[..i], m).Ok? && Guest(tokens[i], m).Err?
    ensures Guests(tokens, m) == Err(Guest(tokens[i], m).error)
  {
    hide Guest;
    var n := |tokens| - 1;
    if i < n {
      assert tokens[..n][..i] == tokens[..i];
      FirstFault(tokens[..n], i, m);
    }
  }

  /** Entry `k` could not be rewritten: those before it were, those from it on were left alone. */
  ghost predicate StoppedAt(was: seq<string>, now: seq<string>, m: PciMap, k: nat, fault: Fault) {
    && |was| == |now| && k < |was| && Translated(was[k], m) == Err(fault)
    && (forall i :: 0 <= i < k ==> Translated(was[i], m) == Ok(now[i]))
    && now[k..] == was[k..]
  }

  /** Rewrite the environment in place; a fault leaves the entries from there on as they were. */
  method UpdateEnvPci(env: array<string>, m: PciMap) returns (fault: Option<Fault>)
    modifies env
    ensures fault.None? ==> forall i :: 0 <= i < env.Length ==> Translated(old(env[i]), m) == Ok(env[i])
    ensures fault.Some? ==> exists k: nat :: StoppedAt(old(env[..]), env[..], m, k, fault.value)
  {
    hide Split, Guests, Join;
    for k := 0 to env.Length
      invariant forall i :: 0 <= i < k ==> Translated(old(env[i]), m) == Ok(env[i])
      invariant forall i :: k <= i < env.Length ==> env[i] == old(env[i])
    {
      var parts := Parts(env[k]);
      if parts.None? {
        assert StoppedAt(old(env[..]), env[..], m, k, Malformed);
        return Some(Malformed);
      }
      if PREFIX <= parts.value.0 {
        var gs := TranslateValue(parts.value.1, m);
        if gs.Err? {
          assert StoppedAt(old(env[..]), env[..], m, k, gs.error);
          return Some(gs.error);
        }
        env[k] := parts.value.0 + "=" + Join(gs.value, ',');
      }
    }
    fault := None;
  }
}

/** Device nodes and cgroup rules of a container spec, given the guest's numbers. */
module SpecDevices {
  import opened Wrappers

  datatype Dev = Dev(path: string, kind: string, major: int, minor: int)

  datatype Info = Info(major: int, minor: int)

  datatype Update = Update(info: Info, finalPath: Option<string>)

  datatype Rule = Rule(allow: bool, kind: string, major: Option<int>, minor: Option<int>, access: string)

  datatype Fault = NoLinux | Conflict | Missing

  type Key = (string, int, int)

  type Updates = map<string, Update>

  function KeyOf(d: Dev): Key {
    (d.kind, d.major, d.minor)
  }

  /** The first device with a path that has an update. */
  ghost predicate Hit(devs: seq<Dev>, u: Updates, i: int) {
    0 <= i < |devs| && devs[i].path in u && forall j :: 0 <= j < i ==> devs[j].path != devs[i].path
  }

  function Put(d: Dev, u: Update): Dev {
    Dev(if u.finalPath.Some? then u.finalPath.value else d.path, d.kind, u.info.major, u.info.minor)
  }

  /** A device that has its type still, the guest's numbers, and another path if one was asked for. */
  predicate Moved(was: Dev, u: Update, now: Dev) {
    && now.kind == was.kind && now.major == u.info.major && now.minor == u.info.minor
    && (match u.finalPath
        case None => now.path == was.path
        case Some(path) => now.path == path)
  }

  predicate SameNode(d: Dev, e: Dev) {
    d.kind == e.kind && d.major == e.major && d.minor == e.minor
  }

  /** No two updated devices had the same type and host numbers. */
  ghost predicate NoConflict(devs: seq<Dev>, u: Updates, n: nat) {
    forall i, j :: 0 <= i < j < n && Hit(devs, u, i) && Hit(devs, u, j) ==> !SameNode(devs[i], devs[j])
  }

  /** The first updated device with the type and host numbers of an earlier one. */
  ghost predicate FirstClash(devs: seq<Dev>, u: Updates, k: nat) {
    && NoConflict(devs, u, k) && Hit(devs, u, k)
    && exists i :: 0 <= i < k && Hit(devs, u, i) && SameNode(devs[i], devs[k])
  }

  ghost predicate Listed(devs: seq<Dev>, n: nat, p: string)
    requires n <= |devs|
  {
    exists i :: 0 <= i < n && devs[i].path == p
  }

  ghost predicate AllListed(devs: seq<Dev>, u: Updates) {
    forall p <- u :: Listed(devs, |devs|, p)
  }

  /** `res` holds the guest numbers of every device updated so far, by its type and host numbers. */
  ghost predicate Tabulates(res: map<Key, Info>, devs: seq<Dev>, u: Updates, n: nat) {
    && (forall i :: 0 <= i < n && Hit(devs, u, i) ==>
        KeyOf(devs[i]) in res && res[KeyOf(devs[i])] == u[devs[i].path].info)
    && (forall k <- res :: exists i :: 0 <= i < n && Hit(devs, u, i) && KeyOf(devs[i]) == k)
  }

  /** The updates whose path has not come up yet. */
  ghost predicate Remaining(left: Updates, devs: seq<Dev>, u: Updates, n: nat)
    requires n <= |devs|
  {
    && (forall p :: p in left <==> p in u && !Listed(devs, n, p))
    && (forall p <- left :: left[p] == u[p])
  }

  ghost predicate Rewritten(now: seq<Dev>, devs: seq<Dev>, u: Updates, n: nat)
    requires |now| == |devs|
  {
    forall j: nat :: j < |devs| ==>
      if j < n && Hit(devs, u, j) then Moved(devs[j], u[devs[j].path], now[j]) else now[j] == devs[j]
  }

  lemma NothingYet(devs: seq<Dev>, u: Updates)
    ensures Remaining(u, devs, u, 0) && Tabulates(map[], devs, u, 0) && NoConflict(devs, u, 0)
  {
  }

  lemma NextDevice(left: Updates, devs: seq<Dev>, u: Updates, i: nat)
    requires i < |devs| && Remaining(left, devs, u, i)
    ensures var p := devs[i].path;
            && (p in left <==> Hit(devs, u, i)) && (p in left ==> p in u && left[p] == u[p])
            && Remaining(left - {p}, devs, u, i + 1)
            && (p !in left ==> Remaining(left, devs, u, i + 1))
  {
    forall q: string
      ensures Listed(devs, i + 1, q) <==> Listed(devs, i, q) || q == devs[i].path
    {
    }
    assert left - {devs[i].path} == left || devs[i].path in left;
  }

  lemma NextHit(res: map<Key, Info>, devs: seq<Dev>, u: Updates, i: nat)
    requires i < |devs| && devs[i].path in u && Hit(devs, u, i)
    requires Tabulates(res, devs, u, i) && NoConflict(devs, u, i)
    ensures KeyOf(devs[i]) in res ==> !NoConflict(devs, u, |devs|) && FirstClash(devs, u, i)
    ensures KeyOf(devs[i]) !in res ==>
      Tabulates(res[KeyOf(devs[i]) := u[devs[i].path].info], devs, u, i + 1) && NoConflict(devs, u, i + 1)
  {
    hide Hit;
    var key := KeyOf(devs[i]);
    if key !in res {
      var more := res[key := u[devs[i].path].info];
      forall k <- more
        ensures exists j :: 0 <= j < i + 1 && Hit(devs, u, j) && KeyOf(devs[j]) == k
      {
        if k != key {
          assert k in res;
        }
      }
    }
  }

  lemma NextMiss(res: map<Key, Info>, devs: seq<Dev>, u: Updates, i: nat)
    requires Tabulates(res, devs, u, i) && NoConflict(devs, u, i) && !Hit(devs, u, i)
    ensures Tabulates(res, devs, u, i + 1) && NoConflict(devs, u, i + 1)
  {
    hide Hit;
  }

  lemma AllSeen(left: Updates, devs: seq<Dev>, u: Updates)
    requires Remaining(left, devs, u, |devs|)
    ensures left == map[] <==> AllListed(devs, u)
  {
    if left != map[] {
      var p :| p in left;
    }
  }

  predicate Numbered(r: Rule) {
    r.major.Some? && r.minor.Some?
  }

  function RuleKey(r: Rule): Key
    requires Numbered(r)
  {
    (r.kind, r.major.value, r.minor.value)
  }

  /** The rule is about the device's type and numbers. */
  predicate About(r: Rule, d: Dev) {
    r.kind == d.kind && r.major == Some(d.major) && r.minor == Some(d.minor)
  }

  /** A rule after the update: the guest's numbers in place of the host's if what it said before names an updated
      device, and else left alone. */
  ghost predicate Substituted(devs: seq<Dev>, u: Updates, was: Rule, now: Rule) {
    if exists i :: Hit(devs, u, i) && About(was, devs[i]) then
      exists i :: Hit(devs, u, i) && About(was, devs[i]) && Follows(was, u[devs[i].path].info, now)
    else now == was
  }

  predicate Follows(was: Rule, info: Info, now: Rule) {
    && now.allow == was.allow && now.kind == was.kind && now.access == was.access
    && now.major == Some(info.major) && now.minor == Some(info.minor)
  }

  function Renumbered(r: Rule, info: Info): Rule {
    r.(major := Some(info.major), minor := Some(info.minor))
  }

  /** Every update lands on the first device with that path, and on no other. */
  lemma UpdatesLand(devs: seq<Dev>, u: Updates, now: seq<Dev>, p: string)
    requires AllListed(devs, u) && p in u && |now| == |devs| && Rewritten(now, devs, u, |devs|)
    ensures exists i :: Hit(devs, u, i) && devs[i].path == p && Moved(devs[i], u[p], now[i])
    ensures forall i, j :: Hit(devs, u, i) && Hit(devs, u, j) && devs[i].path == devs[j].path ==> i == j
  {
    FirstListed(devs, u, p, |devs|);
  }

  lemma {:induction false} FirstListed(devs: seq<Dev>, u: Updates, p: string, n: nat)
    requires n <= |devs| && Listed(devs, n, p) && p in u
    ensures exists i :: Hit(devs, u, i) && devs[i].path == p
  {
    if Listed(devs, n - 1, p) {
      FirstListed(devs, u, p, n - 1);
    } else {
      assert Hit(devs, u, n - 1);
    }
  }

  /** Two devices that trade numbers: each one's rule follows its own device, and is not mapped back. */
  lemma TradedNumbers(devs: seq<Dev>, u: Updates, i: int, j: int, was: Rule, now: Rule)
    requires Hit(devs, u, i) && Hit(devs, u, j) && i != j && NoConflict(devs, u, |devs|)
    requires devs[i].kind == devs[j].kind
    requires u[devs[i].path].info == Info(devs[j].major, devs[j].minor)
    requires About(was, devs[i]) && Substituted(devs, u, was, now)
    ensures About(now, devs[j]) && !About(now, devs[i])
  {
    var k :| Hit(devs, u, k) && About(was, devs[k]) && Follows(was, u[devs[k].path].info, now);
    assert k == i;
  }

  /** Looking a rule up in the table is looking for the device it is about. */
  lemma RuleMapped(res: map<Key, Info>, devs: seq<Dev>, u: Updates, was: Rule, now: Rule)
    requires Tabulates(res, devs, u, |devs|)
    requires now == if Numbered(was) && RuleKey(was) in res then Renumbered(was, res[RuleKey(was)]) else was
    ensures Substituted(devs, u, was, now)
  {
    if Numbered(was) && RuleKey(was) in res {
      var i :| 0 <= i < |devs| && Hit(devs, u, i) && KeyOf(devs[i]) == RuleKey(was);
      assert About(was, devs[i]) && Follows(was, u[devs[i].path].info, now);
    } else {
      assert forall i :: Hit(devs, u, i) && About(was, devs[i]) ==> KeyOf(devs[i]) == RuleKey(was);
    }
  }

  class LinuxSpec {
    var linux: bool
    var devices: seq<Dev>
    var rules: Option<seq<Rule>>

    method UpdateSpecDevices(updates: Updates) returns (fault: Option<Fault>)
      modifies this
      ensures linux == old(linux) && (fault == Some(NoLinux) <==> !linux)
      ensures fault == Some(Conflict) <==> linux && !NoConflict(old(devices), updates, |old(devices)|)
      ensures fault == Some(Missing) <==>
        linux && NoConflict(old(devices), updates, |old(devices)|) && !AllListed(old(devices), updates)
      ensures |devices| == |old(devices)|
      ensures fault.None? || fault == Some(Missing) ==> Rewritten(devices, old(devices), updates, |devices|)
      ensures fault == Some(Conflict) ==>
        exists k: nat :: FirstClash(old(devices), updates, k) && Rewritten(devices, old(devices), updates, k + 1)
      ensures fault.None? ==> rules.Some? == old(rules).Some?
      ensures fault.None? && rules.Some? ==>
        && |rules.value| == |old(rules).value|
        && forall k :: 0 <= k < |rules.value| ==>
          Substituted(old(devices), updates, old(rules).value[k], rules.value[k])
      ensures fault.Some? ==> rules == old(rules)
      ensures fault == Some(NoLinux) ==> devices == old(devices)
    {
      if !linux {
        return Some(NoLinux);
      }
      var res := UpdateDevices(updates);
      if res.Err? {
        return Some(res.error);
      }
      if rules.Some? {
        UpdateRules(res.value, old(devices), updates);
      }
      fault := None;
    }

    method UpdateDevices(updates: Updates) returns (r: Result<map<Key, Info>, Fault>)
      modifies this`devices
      ensures r == Err(Conflict) <==> !NoConflict(old(devices), updates, |old(devices)|)
      ensures r == Err(Missing) <==>
        NoConflict(old(devices), updates, |old(devices)|) && !AllListed(old(devices), updates)
      ensures r.Ok? ==> Tabulates(r.value, old(devices), updates, |old(devices)|)
      ensures r.Err? ==> r.error in {Conflict, Missing}
      ensures |devices| == |old(devices)|
      ensures r != Err(Conflict) ==> Rewritten(devices, old(devices), updates, |devices|)
      ensures r == Err(Conflict) ==>
        exists k: nat :: FirstClash(old(devices), updates, k) && Rewritten(devices, old(devices), updates, k + 1)
    {
      hide Hit, Listed, Tabulates, NoConflict, AllListed, Remaining, FirstClash;
      var left, res := updates, map[];
      ghost var devs := devices;
      NothingYet(devs, updates);
      for i := 0 to |devices|
        invariant |devices| == |devs| && Rewritten(devices, devs, updates, i)
        invariant Remaining(left, devs, updates, i)
        invariant Tabulates(res, devs, updates, i) && NoConflict(devs, updates, i)
      {
        var d := devices[i];
        NextDevice(left, devs, updates, i);
        if d.path in left {
          var u := left[d.path];
          NextHit(res, devs, updates, i);
          left := left - {d.path};
          devices := devices[i := Put(d, u)];
          if KeyOf(d) in res {
            assert FirstClash(devs, updates, i) && Rewritten(devices, devs, updates, i + 1);
            return Err(Conflict);
          }
          res := res[KeyOf(d) := u.info];
        } else {
          NextMiss(res, devs, updates, i);
        }
      }
      AllSeen(left, devs, updates);
      if left != map[] {
        return Err(Missing);
      }
      r := Ok(res);
    }

    method UpdateRules(res: map<Key, Info>, ghost devs: seq<Dev>, ghost updates: Updates)
      requires rules.Some? && Tabulates(res, devs, updates, |devs|)
      modifies this`rules
      ensures rules.Some? && |rules.value| == |old(rules).value|
      ensures forall k :: 0 <= k < |rules.value| ==> Substituted(devs, updates, old(rules).value[k], rules.value[k])
    {
      ghost var was := rules.value;
      for k := 0 to |rules.value|
        invariant rules.Some? && |rules.value| == |was|
        invariant forall j :: 0 <= j < k ==> Substituted(devs, updates, was[j], rules.value[j])
        invariant forall j :: k <= j < |was| ==> rules.value[j] == was[j]
      {
        var r := rules.value[k];
        if Numbered(r) && RuleKey(r) in res {
          rules := Some(rules.value[k := Renumbered(r, res[RuleKey(r)])]);
        }
        RuleMapped(res, devs, updates, r, rules.value[k]);
      }
    }
  }
}
