/**
  PROPPATCH (section 9.2 of RFC 4918): `set_property_value` of `wsgidav/dav_provider.py` and the
  two passes of `do_PROPPATCH` in `wsgidav/request_server.py`.
*/
module Proppatch {
  import opened Wrappers
  import opened Properties

  /** The settings the decision depends on. `win32` is `emulate_win32_lastmod` for a client that can use it. */
  datatype Config = Config(mutableLiveProps: set<string>, win32: bool, hasManager: bool)

  const LOCK_PROPERTIES := {"{DAV:}lockdiscovery", "{DAV:}supportedlock"}

  const LIVE_PROPERTIES := {
    "{DAV:}creationdate", "{DAV:}displayname", "{DAV:}getcontenttype", "{DAV:}resourcetype",
    "{DAV:}getlastmodified", "{DAV:}getcontentlength", "{DAV:}getetag", "{DAV:}getcontentlanguage"
  }

  /** What becomes of a property: refused, stored, accepted and dropped, or handed to `set_last_modified`. */
  datatype Handling = Refused | Stored | Dropped | TimeStamp

  function HandlingOf(name: string, c: Config): Handling {
    if name in LOCK_PROPERTIES then Refused
    else if "{DAV:}" <= name && name in LIVE_PROPERTIES && name in c.mutableLiveProps then
      if name == "{DAV:}getlastmodified" then TimeStamp else Refused
    else if "{urn:schemas-microsoft-com:}" <= name && c.win32 && Occurs("Win32LastModifiedTime", name) then TimeStamp
    else if "{urn:schemas-microsoft-com:}" <= name && c.win32
            && (Occurs("Win32FileAttributes", name) || Occurs("Win32CreationTime", name) || Occurs("Win32LastAccessTime", name)) then Dropped
    else if c.hasManager && !("{DAV:}" <= name) then Stored
    else Refused
  }

  /** A value to set, or None to remove the property. */
  type Value = Option<string>

  datatype Update = Update(name: string, value: Value)

  /** The time stamps the provider's `set_last_modified` accepts in the dry run and in the real one. */
  datatype Stamps = Stamps(dryRun: set<string>, realRun: set<string>)

  function Accepted(stamps: Stamps, dryRun: bool): set<string> {
    if dryRun then stamps.dryRun else stamps.realRun
  }

  /** 200, the error of the update itself, or 424. */
  datatype Status = Ok | Failed | FailedDependency

  /** The dead properties of all URLs and the time stamp of the resource. */
  datatype Store = Store(table: Table, modified: string)

  /** Whether `set_property_value` returns normally. */
  predicate Works(u: Update, c: Config, stamps: Stamps, dryRun: bool) {
    match HandlingOf(u.name, c)
    case Refused => false
    case Stored => u.value == None || u.name != ""
    case Dropped => true
    case TimeStamp => u.value.Some? && u.value.value in Accepted(stamps, dryRun)
  }

  /** What a real update that works does to the store. */
  function Apply(s: Store, u: Update, url: string, c: Config): Store {
    match HandlingOf(u.name, c)
    case TimeStamp => if u.value.Some? then s.(modified := u.value.value) else s
    case Stored =>
      if u.value.Some? then s.(table := s.table[url := (if url in s.table then s.table[url] else map[])[u.name := u.value.value]])
      else if url in s.table then s.(table := s.table[url := s.table[url] - {u.name}]) else s
    case _ => s
  }

  // ---------------------------------------------------------------- what becomes of a property, by its name

  /**
    A property outside the DAV: namespace, which is not one of the four of a Windows client where
    these are emulated, is stored: with a manager a removal always works, and a value with a name.
  */
  lemma {:induction false} DeadPropertyIsStored(s: Store, u: Update, url: string, c: Config, stamps: Stamps, dryRun: bool)
    requires !("{DAV:}" <= u.name)
    requires c.win32 && "{urn:schemas-microsoft-com:}" <= u.name ==>
               && !Occurs("Win32LastModifiedTime", u.name) && !Occurs("Win32FileAttributes", u.name)
               && !Occurs("Win32CreationTime", u.name) && !Occurs("Win32LastAccessTime", u.name)
    ensures Works(u, c, stamps, dryRun) <==> c.hasManager && (u.value.None? || u.name != "")
    ensures c.hasManager ==>
              var t := Apply(s, u, url, c);
              && t.modified == s.modified
              && PropsOf(t.table, url) == (if u.value.Some? then PropsOf(s.table, url)[u.name := u.value.value] else PropsOf(s.table, url) - {u.name})
              && forall other :: other != url ==> PropsOf(t.table, other) == PropsOf(s.table, other)
  {
    LockPropertiesAreDav(u.name);
    assert u.value.None? && url !in s.table ==> PropsOf(s.table, url) - {u.name} == map[];
  }

  lemma LockPropertiesAreDav(name: string)
    ensures name in LOCK_PROPERTIES ==> "{DAV:}" <= name
  {
  }

  /** A property of the DAV: namespace works only as a time stamp that the settings let clients change. */
  lemma {:induction false} DavPropertyIsRefused(u: Update, c: Config, stamps: Stamps, dryRun: bool)
    requires "{DAV:}" <= u.name && !(u.name == "{DAV:}getlastmodified" && u.name in c.mutableLiveProps)
    ensures !Works(u, c, stamps, dryRun)
  {
    DavIsNotMicrosoft(u.name);
  }

  lemma DavIsNotMicrosoft(name: string)
    requires "{DAV:}" <= name
    ensures !("{urn:schemas-microsoft-com:}" <= name)
  {
    assert "{DAV:}"[1] != "{urn:schemas-microsoft-com:}"[1];
  }

  /** A time stamp works if it has a value that the provider takes, and is then that of the resource. */
  lemma {:induction false} TimeStampIsSet(s: Store, u: Update, url: string, c: Config, stamps: Stamps, dryRun: bool)
    requires || (u.name == "{DAV:}getlastmodified" && u.name in c.mutableLiveProps)
             || ("{urn:schemas-microsoft-com:}" <= u.name && c.win32 && Occurs("Win32LastModifiedTime", u.name))
    ensures Works(u, c, stamps, dryRun) <==> u.value.Some? && u.value.value in if dryRun then stamps.dryRun else stamps.realRun
    ensures u.value.Some? ==> Apply(s, u, url, c) == Store(s.table, u.value.value)
  {
    TimeStampNames(u.name, c);
  }

  lemma TimeStampNames(name: string, c: Config)
    requires || (name == "{DAV:}getlastmodified" && name in c.mutableLiveProps)
             || ("{urn:schemas-microsoft-com:}" <= name && c.win32 && Occurs("Win32LastModifiedTime", name))
    ensures HandlingOf(name, c) == TimeStamp
  {
    if "{urn:schemas-microsoft-com:}" <= name {
      MicrosoftIsNotDav(name);
      LockPropertiesAreDav(name);
    } else {
      assert name[6] == 'g';
    }
  }

  /** The other properties of a Windows client are accepted and dropped. */
  lemma {:induction false} Win32IsDropped(s: Store, u: Update, url: string, c: Config, stamps: Stamps, dryRun: bool)
    requires "{urn:schemas-microsoft-com:}" <= u.name && c.win32 && !Occurs("Win32LastModifiedTime", u.name)
    requires Occurs("Win32FileAttributes", u.name) || Occurs("Win32CreationTime", u.name) || Occurs("Win32LastAccessTime", u.name)
    ensures Works(u, c, stamps, dryRun) && Apply(s, u, url, c) == s
  {
    DroppedNames(u.name, c);
  }

  lemma DroppedNames(name: string, c: Config)
    requires "{urn:schemas-microsoft-com:}" <= name && c.win32 && !Occurs("Win32LastModifiedTime", name)
    requires Occurs("Win32FileAttributes", name) || Occurs("Win32CreationTime", name) || Occurs("Win32LastAccessTime", name)
    ensures HandlingOf(name, c) == Dropped
  {
    MicrosoftIsNotDav(name);
    LockPropertiesAreDav(name);
  }

  lemma MicrosoftIsNotDav(name: string)
    requires "{urn:schemas-microsoft-com:}" <= name
    ensures !("{DAV:}" <= name)
  {
    assert name[1] == 'u';
  }

  class Resource {
    const url: string
    const config: Config
    const stamps: Stamps
    const manager: PropertyManager
    var modified: string

    constructor (url: string, config: Config, stamps: Stamps, manager: PropertyManager, modified: string)
      ensures this.url == url && this.config == config && this.stamps == stamps && this.manager == manager
      ensures this.modified == modified
    {
      this.url, this.config, this.stamps, this.manager, this.modified := url, config, stamps, manager, modified;
    }

    ghost function StoreOf(): Store
      reads this, manager
    {
      Store(manager.dict, modified)
    }

    /** `set_last_modified` of the provider: in the dry run it only checks. */
    method SetLastModified(time: string, dryRun: bool) returns (ok: bool)
      modifies this
      ensures ok <==> time in Accepted(stamps, dryRun)
      ensures modified == if ok && !dryRun then time else old(modified)
    {
      ok := time in Accepted(stamps, dryRun);
      if ok && !dryRun { modified := time; }
    }

    /** `set_property_value`; false stands for the exception it raises. */
    method SetPropertyValue(u: Update, dryRun: bool) returns (ok: bool)
      modifies this, manager
      ensures ok <==> Works(u, config, stamps, dryRun)
      ensures StoreOf() == if ok && !dryRun then Apply(old(StoreOf()), u, url, config) else old(StoreOf())
    {
      if u.name in LOCK_PROPERTIES { return false; }
      if "{DAV:}" <= u.name && u.name in LIVE_PROPERTIES && u.name in config.mutableLiveProps {
        if u.name == "{DAV:}getlastmodified" && u.value.Some? {
          ok := SetLastModified(u.value.value, dryRun);
          return;
        }
        return false;
      }
      if "{urn:schemas-microsoft-com:}" <= u.name && config.win32 {
        if Occurs("Win32LastModifiedTime", u.name) {
          if u.value.None? { return false; }
          ok := SetLastModified(u.value.value, dryRun);
          return;
        } else if Occurs("Win32FileAttributes", u.name) || Occurs("Win32CreationTime", u.name) || Occurs("Win32LastAccessTime", u.name) {
          return true;
        }
      }
      if config.hasManager && !("{DAV:}" <= u.name) {
        if u.value.None? {
          manager.RemoveProperty(url, u.name, dryRun);
          return true;
        }
        if u.name == "" { return false; }
        manager.WriteProperty(url, u.name, u.value.value, dryRun);
        return true;
      }
      return false;
    }
  }

  // ---------------------------------------------------------------- both passes

  /** The updates that work in the real run, applied in document order. */
  function ApplyAll(s: Store, us: seq<Update>, url: string, c: Config, stamps: Stamps): Store {
    if us == [] then s
    else
      var before, u := ApplyAll(s, us[..|us| - 1], url, c, stamps), us[|us| - 1];
      if Works(u, c, stamps, false) then Apply(before, u, url, c) else before
  }

  predicate AllWork(us: seq<Update>, c: Config, stamps: Stamps, dryRun: bool) {
    forall i :: 0 <= i < |us| ==> Works(us[i], c, stamps, dryRun)
  }

  function StatusIn(us: seq<Update>, i: nat, c: Config, stamps: Stamps): Status
    requires i < |us|
  {
    if AllWork(us, c, stamps, true) then (if Works(us[i], c, stamps, false) then Ok else Failed)
    else if Works(us[i], c, stamps, true) then FailedDependency else Failed
  }

  lemma AllWorkSnoc(us: seq<Update>, k: nat, c: Config, stamps: Stamps, dryRun: bool)
    requires k < |us|
    ensures AllWork(us[..k + 1], c, stamps, dryRun) <==> AllWork(us[..k], c, stamps, dryRun) && Works(us[k], c, stamps, dryRun)
  {
    assert us[..k + 1] == us[..k] + [us[k]];
  }

  /** The first pass. */
  method DryRun(res: Resource, us: seq<Update>) returns (success: bool, results: seq<(string, bool)>)
    modifies res, res.manager
    ensures success == AllWork(us, res.config, res.stamps, true) && |results| == |us|
    ensures forall i :: 0 <= i < |us| ==> results[i] == (us[i].name, Works(us[i], res.config, res.stamps, true))
    ensures res.StoreOf() == old(res.StoreOf())
  {
    success, results := true, [];
    for k := 0 to |us|
      invariant |results| == k && success == AllWork(us[..k], res.config, res.stamps, true)
      invariant forall i :: 0 <= i < k ==> results[i] == (us[i].name, Works(us[i], res.config, res.stamps, true))
      invariant res.StoreOf() == old(res.StoreOf())
    {
      var ok := res.SetPropertyValue(us[k], true);
      results := results + [(us[k].name, ok)];
      AllWorkSnoc(us, k, res.config, res.stamps, true);
      success := success && ok;
    }
    assert us[..|us|] == us;
  }

  /** The second pass. */
  method RealRun(res: Resource, us: seq<Update>) returns (responses: seq<(string, Status)>)
    modifies res, res.manager
    ensures |responses| == |us|
    ensures forall i :: 0 <= i < |us| ==>
              responses[i] == (us[i].name, if Works(us[i], res.config, res.stamps, false) then Ok else Failed)
    ensures res.StoreOf() == ApplyAll(old(res.StoreOf()), us, res.url, res.config, res.stamps)
  {
    responses := [];
    for k := 0 to |us|
      invariant |responses| == k
      invariant forall i :: 0 <= i < k ==>
                  responses[i] == (us[i].name, if Works(us[i], res.config, res.stamps, false) then Ok else Failed)
      invariant res.StoreOf() == ApplyAll(old(res.StoreOf()), us[..k], res.url, res.config, res.stamps)
    {
      var ok := res.SetPropertyValue(us[k], false);
      responses := responses + [(us[k].name, if ok then Ok else Failed)];
      assert us[..k + 1][..k] == us[..k];
    }
    assert us[..|us|] == us;
  }

  /** `do_PROPPATCH`: a dry run over all updates, then the real one if nothing failed. */
  method DoProppatch(res: Resource, us: seq<Update>) returns (responses: seq<(string, Status)>)
    modifies res, res.manager
    ensures |responses| == |us|
    ensures forall i :: 0 <= i < |us| ==> responses[i] == (us[i].name, StatusIn(us, i, res.config, res.stamps))
    ensures res.StoreOf() == if AllWork(us, res.config, res.stamps, true)
                             then ApplyAll(old(res.StoreOf()), us, res.url, res.config, res.stamps) else old(res.StoreOf())
  {
    var success, writeResults := DryRun(res, us);
    if success {
      responses := RealRun(res, us);
      return;
    }
    responses := [];
    for k := 0 to |us|
      invariant |responses| == k
      invariant forall i :: 0 <= i < k ==> responses[i] == (us[i].name, StatusIn(us, i, res.config, res.stamps))
    {
      responses := responses + [(writeResults[k].0, if writeResults[k].1 then FailedDependency else Failed)];
    }
  }

  /** 200 is for an update that works in both runs when all work in the dry one; 424 for one that works in a dry run in which another fails. */
  lemma {:induction false} StatusIff(us: seq<Update>, i: nat, c: Config, stamps: Stamps)
    requires i < |us|
    ensures var all := forall j :: 0 <= j < |us| ==> Works(us[j], c, stamps, true);
            && (StatusIn(us, i, c, stamps) == Ok <==> all && Works(us[i], c, stamps, false))
            && (StatusIn(us, i, c, stamps) == FailedDependency <==> !all && Works(us[i], c, stamps, true))
            && (StatusIn(us, i, c, stamps) == Failed <==> !Works(us[i], c, stamps, !all))
  {
  }

  // ---------------------------------------------------------------- all or nothing

  /** Either every update is applied and reported, or none is, and the failing ones are named. */
  ghost predicate AllOrNothing(us: seq<Update>, c: Config, stamps: Stamps) {
    || (forall i :: 0 <= i < |us| ==> StatusIn(us, i, c, stamps) == Ok)
    || (!AllWork(us, c, stamps, true) && (exists i :: 0 <= i < |us| && StatusIn(us, i, c, stamps) == Failed)
        && forall i :: 0 <= i < |us| ==> StatusIn(us, i, c, stamps) != Ok)
  }

  /** The dry run of an update predicts the real one, unless it is a time stamp the provider judges differently. */
  lemma {:induction false} DryRunPredicts(u: Update, c: Config, stamps: Stamps)
    ensures Works(u, c, stamps, true) == Works(u, c, stamps, false) <==>
              !(HandlingOf(u.name, c).TimeStamp? && u.value.Some? && (u.value.value in stamps.dryRun <==> u.value.value !in stamps.realRun))
  {
  }

  /**
    A PROPPATCH is all or nothing exactly if, once the dry run has passed, the provider takes every
    time stamp in the real one.
  */
  lemma AllOrNothingIff(us: seq<Update>, c: Config, stamps: Stamps)
    ensures AllOrNothing(us, c, stamps) <==>
              AllWork(us, c, stamps, true) ==>
                forall i :: 0 <= i < |us| && HandlingOf(us[i].name, c).TimeStamp? ==> us[i].value.value in stamps.realRun
  {
    if AllWork(us, c, stamps, true) {
      forall i | 0 <= i < |us| ensures StatusIn(us, i, c, stamps) == Ok <==> HandlingOf(us[i].name, c).TimeStamp? ==> us[i].value.value in stamps.realRun {
        assert Works(us[i], c, stamps, true);
        DryRunPredicts(us[i], c, stamps);
      }
    } else {
      var i :| 0 <= i < |us| && !Works(us[i], c, stamps, true);
      assert StatusIn(us, i, c, stamps) == Failed;
    }
  }

  /** A dead property and a time stamp the provider takes in the dry run and then refuses: one is applied, the other fails. */
  lemma {:induction false} RefusedTimeStampSplits()
    ensures var c, stamps := Config({"{DAV:}getlastmodified"}, false, true), Stamps({"now"}, {});
            var us := [Update("{x}p", Some("v")), Update("{DAV:}getlastmodified", Some("now"))];
            && AllWork(us, c, stamps, true)
            && StatusIn(us, 0, c, stamps) == Ok && StatusIn(us, 1, c, stamps) == Failed && !AllOrNothing(us, c, stamps)
  {
    var c, stamps := Config({"{DAV:}getlastmodified"}, false, true), Stamps({"now"}, {});
    var us := [Update("{x}p", Some("v")), Update("{DAV:}getlastmodified", Some("now"))];
    assert "{x}p"[1] == 'x';
    assert HandlingOf("{x}p", c) == Stored;
    assert HandlingOf("{DAV:}getlastmodified", c) == TimeStamp;
    assert Works(us[0], c, stamps, true) && Works(us[1], c, stamps, true);
    assert StatusIn(us, 0, c, stamps) == Ok && StatusIn(us, 1, c, stamps) == Failed;
  }

  /** The last update of a dead property decides its value. */
  lemma {:induction false} LastUpdateWins(s: Store, us: seq<Update>, url: string, c: Config, stamps: Stamps,
          name: string, k: nat)
    requires k < |us| && us[k].name == name && Works(us[k], c, stamps, false) && !("{DAV:}" <= name)
    requires c.win32 && "{urn:schemas-microsoft-com:}" <= name ==>
               && !Occurs("Win32LastModifiedTime", name) && !Occurs("Win32FileAttributes", name)
               && !Occurs("Win32CreationTime", name) && !Occurs("Win32LastAccessTime", name)
    requires forall i :: k < i < |us| ==> us[i].name != name
    ensures var t := ApplyAll(s, us, url, c, stamps).table;
            if us[k].value.Some? then url in t && name in t[url] && t[url][name] == us[k].value.value
            else url in t ==> name !in t[url]
    decreases |us|
  {
    LockPropertiesAreDav(name);
    var n := |us| - 1;
    if k < n {
      assert us[n].name != name;
      LastUpdateWins(s, us[..n], url, c, stamps, name, k);
    }
  }

  /** Updates that fail change nothing. */
  lemma {:induction false} FailuresChangeNothing(s: Store, us: seq<Update>, url: string, c: Config, stamps: Stamps)
    requires forall i :: 0 <= i < |us| ==> !Works(us[i], c, stamps, false)
    ensures ApplyAll(s, us, url, c, stamps) == s
  {
    if us != [] {
      var n := |us| - 1;
      assert !Works(us[n], c, stamps, false);
      FailuresChangeNothing(s, us[..n], url, c, stamps);
    }
  }

  /** The last time stamp that works is that of the resource. */
  lemma {:induction false} LastTimeStampWins(s: Store, us: seq<Update>, url: string, c: Config, stamps: Stamps, k: nat)
    requires k < |us| && us[k].name == "{DAV:}getlastmodified" && Works(us[k], c, stamps, false)
    requires forall i :: k < i < |us| && Works(us[i], c, stamps, false) ==> !HandlingOf(us[i].name, c).TimeStamp?
    ensures us[k].value.Some? && ApplyAll(s, us, url, c, stamps).modified == us[k].value.value
    decreases |us|
  {
    var n := |us| - 1;
    GetLastModifiedIsStamp(us[k], c, stamps);
    if k < n {
      assert Works(us[n], c, stamps, false) ==> !HandlingOf(us[n].name, c).TimeStamp?;
      LastTimeStampWins(s, us[..n], url, c, stamps, k);
    }
  }

  lemma GetLastModifiedIsStamp(u: Update, c: Config, stamps: Stamps)
    requires u.name == "{DAV:}getlastmodified" && Works(u, c, stamps, false)
    ensures HandlingOf(u.name, c).TimeStamp? && u.value.Some?
  {
    if u.name !in c.mutableLiveProps { DavPropertyIsRefused(u, c, stamps, false); }
    TimeStampNames(u.name, c);
  }

  /** Properties that no update names, and those of other resources, keep their values. */
  lemma {:induction false} OthersUntouched(s: Store, us: seq<Update>, url: string, c: Config, stamps: Stamps,
          other: string, name: string)
    requires other == url ==> forall i :: 0 <= i < |us| ==> us[i].name != name
    ensures var t := ApplyAll(s, us, url, c, stamps).table;
            (other in t && name in t[other] <==> other in s.table && name in s.table[other])
            && (other in t && name in t[other] ==> t[other][name] == s.table[other][name])
    decreases |us|
  {
    if us != [] {
      var n := |us| - 1;
      assert other == url ==> us[n].name != name;
      OthersUntouched(s, us[..n], url, c, stamps, other, name);
    }
  }
}
