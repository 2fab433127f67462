/**
  The `mdns` plugin's configuration step: it walks the directives of the
  plugin's block, validates each one, and either fails on the first bad one or
  builds the plugin's settings (domain, service types to browse, minimum SRV
  count, filter text, bind address).

  The block reaches the model as a domain string and an array of directives,
  each a name with the arguments that followed it on its line.
 */
module MdnsSetup {
  import opened Wrappers
  import opened Strconv
  import opened Strings

  const TypeKey := "type"
  const MinSrvKey := "min_srv_records"
  const FilterKey := "filter_text"
  const BindAddressKey := "bind_address"
  const Keys: set<string> := {TypeKey, MinSrvKey, FilterKey, BindAddressKey}

  /** Browsed when the block names no service type. */
  const DefaultType := "_workstation._tcp"
  const DefaultMinSrv := 3

  /** One line of the plugin's block: a property name and its arguments. */
  datatype Directive = Directive(name: string, args: seq<string>)

  /** Why a directive was refused. */
  datatype ErrorKind =
    | TypeMissing
    | MinSrvArity
    | MinSrvInvalid
    | FilterArity
    | BindAddressArity
    | UnknownProperty(property: string)

  /** A setup failure: the position of the refused directive in the block, and why. */
  datatype SetupError = SetupError(at: nat, kind: ErrorKind)

  /** The settings gathered so far while walking the block. */
  datatype Options = Options(types: seq<string>, minSrv: int, filter: string, bindAddress: string)

  const Initial := Options([], DefaultMinSrv, "", "")

  /** The scalar fields of the plugin value that setup builds. */
  datatype Mdns = Mdns(domain: string, mdnsTypes: seq<string>, minSrv: int, filter: string, bindAddress: string)

  /** The text of each setup error. */
  function Message(k: ErrorKind): (m: string)
    ensures m != []
  {
    match k
    case TypeMissing => "type needs to exist"
    case MinSrvArity => "min_srv_records needs a number"
    case MinSrvInvalid => "min_srv_records provided is invalid"
    case FilterArity => "filter needs text to filter"
    case BindAddressArity => "bind_address needs an address to bind to"
    case UnknownProperty(p) => "unknown property '" + p + "'"
  }

  /** Different causes never share a message, so the text names the cause. */
  lemma MessageIdentifiesKind(a: ErrorKind, b: ErrorKind)
    requires Message(a) == Message(b)
    ensures a == b
  {
    // only the unknown-property message starts with 'u'
    assert Message(a)[0] == 'u' <==> a.UnknownProperty?;
    assert Message(b)[0] == 'u' <==> b.UnknownProperty?;
    if a.UnknownProperty? && b.UnknownProperty? {
      var prefix := "unknown property '";
      assert Message(a)[|prefix|..|Message(a)| - 1] == a.property;
      assert Message(b)[|prefix|..|Message(b)| - 1] == b.property;
    }
  }

  /**
    The validation rule of one directive: `None` when it is accepted, otherwise
    the reason it is refused. Whether a directive is accepted depends on the
    directive alone, never on the settings gathered before it.
   */
  function Check(d: Directive): (r: Option<ErrorKind>)
    ensures d.name !in Keys ==> r == Some(UnknownProperty(d.name))
    ensures d.name == TypeKey && |d.args| == 0 ==> r == Some(TypeMissing)
    ensures d.name == MinSrvKey && |d.args| != 1 ==> r == Some(MinSrvArity)
    ensures d.name == MinSrvKey && |d.args| == 1 && Atoi(d.args[0]).None? ==> r == Some(MinSrvInvalid)
    ensures d.name == FilterKey && |d.args| != 1 ==> r == Some(FilterArity)
    ensures d.name == BindAddressKey && |d.args| != 1 ==> r == Some(BindAddressArity)
    ensures r.None? <==>
      && d.name in Keys
      && (if d.name == TypeKey then |d.args| >= 1 else |d.args| == 1)
      && (d.name == MinSrvKey ==> Atoi(d.args[0]).Some?)
  {
    if d.name == TypeKey then
      if |d.args| < 1 then Some(TypeMissing) else None
    else if d.name == MinSrvKey then
      if |d.args| != 1 then Some(MinSrvArity)
      else if Atoi(d.args[0]).None? then Some(MinSrvInvalid)
      else None
    else if d.name == FilterKey then
      if |d.args| != 1 then Some(FilterArity) else None
    else if d.name == BindAddressKey then
      if |d.args| != 1 then Some(BindAddressArity) else None
    else
      Some(UnknownProperty(d.name))
  }

  /** The effect of an accepted directive: it sets its own setting and leaves the other three alone. */
  function Update(o: Options, d: Directive): (r: Options)
    requires Check(d).None?
    ensures d.name != TypeKey ==> r.types == o.types
    ensures d.name != MinSrvKey ==> r.minSrv == o.minSrv
    ensures d.name != FilterKey ==> r.filter == o.filter
    ensures d.name != BindAddressKey ==> r.bindAddress == o.bindAddress
    ensures d.name == TypeKey ==> r.types == d.args
    ensures d.name == MinSrvKey ==> Atoi(d.args[0]) == Some(r.minSrv)
    ensures d.name == FilterKey ==> d.args == [r.filter]
    ensures d.name == BindAddressKey ==> d.args == [r.bindAddress]
  {
    if d.name == TypeKey then o.(types := d.args)
    else if d.name == MinSrvKey then o.(minSrv := Atoi(d.args[0]).value)
    else if d.name == FilterKey then o.(filter := d.args[0])
    else o.(bindAddress := d.args[0])
  }

  /** The walk over the block, as a fold over its prefixes: the first refused directive ends it. */
  function Scan(ds: seq<Directive>): (r: Result<Options, SetupError>)
    ensures r.Failure? ==> r.error.at < |ds|
    decreases |ds|
  {
    if ds == [] then Success(Initial)
    else
      match Scan(ds[..|ds| - 1])
      case Failure(e) => Failure(e)
      case Success(o) =>
        match Check(ds[|ds| - 1])
        case Some(k) => Failure(SetupError(|ds| - 1, k))
        case None => Success(Update(o, ds[|ds| - 1]))
  }

  /**
    What setup produces from a domain and a block: the first error, or the
    settings with the service-type default filled in and one trailing dot
    removed from the domain.
   */
  function Configure(domain: string, ds: seq<Directive>): (r: Result<Mdns, SetupError>)
    ensures r.Failure? <==> Scan(ds).Failure?
    ensures r.Success? ==> r.value.mdnsTypes != []
    ensures r.Success? && HasSuffix(domain, ".") ==> r.value.domain + "." == domain
    ensures r.Success? && !HasSuffix(domain, ".") ==> r.value.domain == domain
  {
    match Scan(ds)
    case Failure(e) => Failure(e)
    case Success(o) =>
      var types := if |o.types| == 0 then [DefaultType] else o.types;
      Success(Mdns(TrimSuffix(domain, "."), types, o.minSrv, o.filter, o.bindAddress))
  }

  /** The arguments of the last directive called `name`, if there is one. */
  function LastArgs(ds: seq<Directive>, name: string): (r: Option<seq<string>>)
    decreases |ds|
  {
    if ds == [] then None
    else if ds[|ds| - 1].name == name then Some(ds[|ds| - 1].args)
    else LastArgs(ds[..|ds| - 1], name)
  }

  /**
    setup itself: a loop over the block that keeps the four settings in local
    variables and returns on the first refused directive.
   */
  method Setup(domain: string, block: array<Directive>) returns (r: Result<Mdns, SetupError>)
    ensures r == Configure(domain, block[..])
  {
    var mdnsTypes: seq<string> := [];
    var minSrv := DefaultMinSrv;
    var filter := "";
    var bindAddress := "";
    var i := 0;
    while i < block.Length
      invariant 0 <= i <= block.Length
      invariant Scan(block[..i]) == Success(Options(mdnsTypes, minSrv, filter, bindAddress))
    {
      var d := block[i];
      assert block[..i + 1][..i] == block[..i];
      ghost var refusal := Check(d);
      if refusal.Some? {
        // a refused directive ends the walk whatever follows it
        assert block[..] == block[..i + 1] + block[i + 1..];
        ScanIgnoresAfterFailure(block[..i + 1], block[i + 1..]);
      }
      if d.name == TypeKey {
        var remaining := d.args;
        if |remaining| < 1 {
          return Failure(SetupError(i, TypeMissing));
        }
        mdnsTypes := remaining;
      } else if d.name == MinSrvKey {
        var remaining := d.args;
        if |remaining| != 1 {
          return Failure(SetupError(i, MinSrvArity));
        }
        var srvInt := Atoi(remaining[0]);
        if srvInt.None? {
          return Failure(SetupError(i, MinSrvInvalid));
        }
        minSrv := srvInt.value;
      } else if d.name == FilterKey {
        var remaining := d.args;
        if |remaining| != 1 {
          return Failure(SetupError(i, FilterArity));
        }
        filter := remaining[0];
      } else if d.name == BindAddressKey {
        var remaining := d.args;
        if |remaining| != 1 {
          return Failure(SetupError(i, BindAddressArity));
        }
        bindAddress := remaining[0];
      } else {
        return Failure(SetupError(i, UnknownProperty(d.name)));
      }
      i := i + 1;
    }
    assert block[..i] == block[..];
    if |mdnsTypes| == 0 {
      mdnsTypes := [DefaultType];
    }
    r := Success(Mdns(TrimSuffix(domain, "."), mdnsTypes, minSrv, filter, bindAddress));
  }

  /** An empty block gives the defaults: `_workstation._tcp`, minimum 3, no filter, default bind address. */
  lemma ConfigureEmptyBlock(domain: string)
    ensures Configure(domain, []) == Success(Mdns(TrimSuffix(domain, "."), [DefaultType], 3, "", ""))
  {
  }

  /**
    The walk fails exactly when some directive is refused, and then it reports
    the first refused one, with its reason; nothing after it is looked at.
   */
  lemma {:induction false} ScanStopsAtFirstRefusal(ds: seq<Directive>)
    ensures Scan(ds).Failure? <==> exists i :: 0 <= i < |ds| && Check(ds[i]).Some?
    ensures Scan(ds).Failure? ==>
      && Check(ds[Scan(ds).error.at]) == Some(Scan(ds).error.kind)
      && forall j :: 0 <= j < Scan(ds).error.at ==> Check(ds[j]).None?
    decreases |ds|
  {
    if ds != [] {
      var p := ds[..|ds| - 1];
      ScanStopsAtFirstRefusal(p);
      assert forall j :: 0 <= j < |p| ==> p[j] == ds[j];
      if Scan(p).Success? && Check(ds[|ds| - 1]).None? {
        forall i | 0 <= i < |ds|
          ensures Check(ds[i]).None?
        {
          if i < |p| {
            assert p[i] == ds[i];
          }
        }
      }
    }
  }

  /** Setup fails exactly when some directive is refused, and the error names the first one. */
  lemma ConfigureStopsAtFirstRefusal(domain: string, ds: seq<Directive>)
    ensures Configure(domain, ds).Failure? <==> exists i :: 0 <= i < |ds| && Check(ds[i]).Some?
    ensures Configure(domain, ds).Failure? ==>
      var e := Configure(domain, ds).error;
      && e.at < |ds|
      && Check(ds[e.at]) == Some(e.kind)
      && forall j :: 0 <= j < e.at ==> Check(ds[j]).None?
  {
    ScanStopsAtFirstRefusal(ds);
  }

  /** A property name other than the four known ones makes setup fail, at that directive or an earlier one. */
  lemma UnknownPropertyFails(domain: string, ds: seq<Directive>, i: nat)
    requires i < |ds| && ds[i].name !in Keys
    ensures Configure(domain, ds).Failure?
    ensures Configure(domain, ds).error.at <= i
    ensures Configure(domain, ds).error.at == i ==>
      Configure(domain, ds).error.kind == UnknownProperty(ds[i].name)
  {
    ConfigureStopsAtFirstRefusal(domain, ds);
  }

  /** Once the walk has failed, appending more directives changes nothing. */
  lemma {:induction false} ScanIgnoresAfterFailure(ds: seq<Directive>, more: seq<Directive>)
    requires Scan(ds).Failure?
    ensures Scan(ds + more) == Scan(ds)
    decreases |more|
  {
    if more != [] {
      var all := ds + more;
      assert all[..|all| - 1] == ds + more[..|more| - 1];
      ScanIgnoresAfterFailure(ds, more[..|more| - 1]);
    } else {
      assert ds + more == ds;
    }
  }

  /** Directives after a refused one are never examined: whatever follows, the result is the same error. */
  lemma ConfigureIgnoresAfterFailure(domain: string, ds: seq<Directive>, more: seq<Directive>)
    requires Configure(domain, ds).Failure?
    ensures Configure(domain, ds + more) == Configure(domain, ds)
  {
    ScanIgnoresAfterFailure(ds, more);
  }

  /**
    On success every setting is that of the last directive naming it (the last
    occurrence wins), or its initial value when no directive names it.
   */
  lemma {:induction false} ScanKeepsLastOccurrence(ds: seq<Directive>)
    requires Scan(ds).Success?
    ensures Scan(ds).value.types == (match LastArgs(ds, TypeKey) case Some(a) => a case None => [])
    ensures LastArgs(ds, MinSrvKey).None? ==> Scan(ds).value.minSrv == DefaultMinSrv
    ensures LastArgs(ds, MinSrvKey).Some? ==>
      |LastArgs(ds, MinSrvKey).value| == 1 && Atoi(LastArgs(ds, MinSrvKey).value[0]) == Some(Scan(ds).value.minSrv)
    ensures LastArgs(ds, FilterKey).None? ==> Scan(ds).value.filter == ""
    ensures LastArgs(ds, FilterKey).Some? ==> LastArgs(ds, FilterKey).value == [Scan(ds).value.filter]
    ensures LastArgs(ds, BindAddressKey).None? ==> Scan(ds).value.bindAddress == ""
    ensures LastArgs(ds, BindAddressKey).Some? ==> LastArgs(ds, BindAddressKey).value == [Scan(ds).value.bindAddress]
    decreases |ds|
  {
    if ds != [] {
      ScanKeepsLastOccurrence(ds[..|ds| - 1]);
    }
  }

  /**
    The settings setup builds: the service types of the last `type` directive
    (`_workstation._tcp` when there is none), the integer of the last
    `min_srv_records` (3 when there is none, and with no range check), and the
    single argument of the last `filter_text` and `bind_address` ("" when absent).
   */
  lemma ConfigureKeepsLastOccurrence(domain: string, ds: seq<Directive>)
    requires Configure(domain, ds).Success?
    ensures var m := Configure(domain, ds).value;
      && m.mdnsTypes == (match LastArgs(ds, TypeKey) case Some(a) => a case None => [DefaultType])
      && (LastArgs(ds, MinSrvKey).None? ==> m.minSrv == 3)
      && (LastArgs(ds, MinSrvKey).Some? ==>
           |LastArgs(ds, MinSrvKey).value| == 1 && Atoi(LastArgs(ds, MinSrvKey).value[0]) == Some(m.minSrv))
      && (LastArgs(ds, FilterKey).None? ==> m.filter == "")
      && (LastArgs(ds, FilterKey).Some? ==> LastArgs(ds, FilterKey).value == [m.filter])
      && (LastArgs(ds, BindAddressKey).None? ==> m.bindAddress == "")
      && (LastArgs(ds, BindAddressKey).Some? ==> LastArgs(ds, BindAddressKey).value == [m.bindAddress])
  {
    ScanKeepsLastOccurrence(ds);
  }

  /**
    Appending an accepted directive to a block that configures sets that
    directive's own setting (`type`: exactly its arguments, in order; the others:
    their single argument, parsed for `min_srv_records`) and leaves every other
    setting as it was.
   */
  lemma ConfigureAppendAccepted(domain: string, ds: seq<Directive>, d: Directive)
    requires Configure(domain, ds).Success? && Check(d).None?
    ensures Configure(domain, ds + [d]).Success?
    ensures var before, after := Configure(domain, ds).value, Configure(domain, ds + [d]).value;
      && after.domain == before.domain
      && (d.name == TypeKey ==> after.mdnsTypes == d.args)
      && (d.name != TypeKey ==> after.mdnsTypes == before.mdnsTypes)
      && (d.name == MinSrvKey ==> Atoi(d.args[0]) == Some(after.minSrv))
      && (d.name != MinSrvKey ==> after.minSrv == before.minSrv)
      && (d.name == FilterKey ==> d.args == [after.filter])
      && (d.name != FilterKey ==> after.filter == before.filter)
      && (d.name == BindAddressKey ==> d.args == [after.bindAddress])
      && (d.name != BindAddressKey ==> after.bindAddress == before.bindAddress)
  {
    var all := ds + [d];
    assert all[..|all| - 1] == ds;
  }

  /**
    Appending a refused directive to a block that configures makes setup fail
    at that directive, with the reason `Check` gives for it.
   */
  lemma ConfigureAppendRefused(domain: string, ds: seq<Directive>, d: Directive)
    requires Configure(domain, ds).Success? && Check(d).Some?
    ensures Configure(domain, ds + [d]) == Failure(SetupError(|ds|, Check(d).value))
  {
    var all := ds + [d];
    assert all[..|all| - 1] == ds;
  }

  /** `type` with no argument is refused, whatever came before it, and at its own position when the rest is accepted. */
  lemma EmptyTypeFails(domain: string, ds: seq<Directive>)
    ensures Configure(domain, ds + [Directive(TypeKey, [])]).Failure?
    ensures Configure(domain, ds).Success? ==>
      Configure(domain, ds + [Directive(TypeKey, [])]) == Failure(SetupError(|ds|, TypeMissing))
  {
    var all := ds + [Directive(TypeKey, [])];
    assert all[..|all| - 1] == ds;
  }

  /**
    `min_srv_records` accepts any int64 written in decimal, including zero and
    negative counts, and only that setting changes.
   */
  lemma MinSrvAcceptsAnyInt64(domain: string, ds: seq<Directive>, n: int)
    requires MinInt64 <= n <= MaxInt64
    requires Configure(domain, ds).Success?
    ensures Configure(domain, ds + [Directive(MinSrvKey, [FormatInt(n)])]).Success?
    ensures Configure(domain, ds + [Directive(MinSrvKey, [FormatInt(n)])]).value ==
      Configure(domain, ds).value.(minSrv := n)
  {
    var all := ds + [Directive(MinSrvKey, [FormatInt(n)])];
    assert all[..|all| - 1] == ds;
    AtoiFormatInt(n);
  }

  /**
    After any accepted directives, `min_srv_records` with a wrong number of
    arguments and with one unparsable argument fail at that directive with two
    different errors, whose messages differ too.
   */
  lemma MinSrvErrors(domain: string, ds: seq<Directive>, args: seq<string>)
    requires Configure(domain, ds).Success?
    ensures |args| != 1 ==>
      Configure(domain, ds + [Directive(MinSrvKey, args)]) == Failure(SetupError(|ds|, MinSrvArity))
    ensures |args| == 1 && Atoi(args[0]).None? ==>
      Configure(domain, ds + [Directive(MinSrvKey, args)]) == Failure(SetupError(|ds|, MinSrvInvalid))
    ensures Message(MinSrvArity) != Message(MinSrvInvalid)
  {
    if |args| != 1 || Atoi(args[0]).None? {
      ConfigureAppendRefused(domain, ds, Directive(MinSrvKey, args));
    }
    if Message(MinSrvArity) == Message(MinSrvInvalid) {
      MessageIdentifiesKind(MinSrvArity, MinSrvInvalid);
    }
  }

  /** Only one trailing dot of the domain is removed: `d + "."` is stored as `d`, even when `d` itself ends in a dot. */
  lemma ConfigureStripsOneDot(domain: string, ds: seq<Directive>)
    requires Configure(domain + ".", ds).Success?
    ensures Configure(domain + ".", ds).value.domain == domain
  {
    TrimSuffixAppended(domain, ".");
  }
}
