/** What the printed document says, letter for letter and name by name. */
module XmlContent {
  import opened ByteStrings
  import opened Xml

  // ---------------------------------------------------------------- what the document says

  /** The values of the parameters of this name, in order. */
  function ValuesOf(ns: seq<Node>, name: string): seq<string> {
    if ns == [] then []
    else (if ns[0].Parm? && ns[0].name == name then [ns[0].value] else []) + ValuesOf(ns[1..], name)
  }

  /** The characteristics among nodes, in order. */
  function Inside(ns: seq<Node>): seq<Node> {
    if ns == [] then [] else (if ns[0].Characteristic? then [ns[0]] else []) + Inside(ns[1..])
  }

  lemma {:induction false} ValuesAppend(a: seq<Node>, b: seq<Node>, name: string)
    ensures ValuesOf(a + b, name) == ValuesOf(a, name) + ValuesOf(b, name)
    ensures Inside(a + b) == Inside(a) + Inside(b)
  {
    if a == [] {
      assert a + b == b;
    } else {
      assert (a + b)[1..] == a[1..] + b;
      ValuesAppend(a[1..], b, name);
    }
  }

  /** The values the extra parameters give for a name. */
  function ExtraValues(params: seq<(string, string)>, name: string): seq<string> {
    if params == [] then []
    else (if params[0].0 == name then [params[0].1] else []) + ExtraValues(params[1..], name)
  }

  lemma {:induction false} ExtrasSay(params: seq<(string, string)>, name: string)
    ensures ValuesOf(Extras(params), name) == ExtraValues(params, name) && Inside(Extras(params)) == []
  {
    if params != [] {
      ExtrasSay(params[1..], name);
      assert Extras(params)[1..] == Extras(params[1..]);
    }
  }

  lemma {:induction false} AddressesSay(addresses: seq<AddressConfig>, name: string)
    ensures ValuesOf(Addresses(addresses), name) == []
    ensures Inside(Addresses(addresses)) == Addresses(addresses) && |Addresses(addresses)| == |addresses|
    ensures forall i :: 0 <= i < |addresses| ==>
      Addresses(addresses)[i]
        == Characteristic("ADDR", [Parm("AddrType", addresses[i].addrType), Parm("Addr", addresses[i].addr)])
  {
    if addresses != [] {
      AddressesSay(addresses[1..], name);
      assert Addresses(addresses)[1..] == Addresses(addresses[1..]);
    }
  }

  lemma OneSays(n: Node, name: string)
    requires n.Parm?
    ensures ValuesOf([n], name) == (if n.name == name then [n.value] else []) && Inside([n]) == []
  {
    assert [n][1..] == [];
  }

  /** The value of an optional status, as a list. */
  function Listed(status: Option<int>): seq<string> {
    match status case Some(n) => [Itoa(n)] case None => []
  }

  lemma OptionalSays(parm: string, status: Option<int>, name: string)
    ensures ValuesOf(Optional(parm, status), name) == (if parm == name then Listed(status) else [])
    ensures Inside(Optional(parm, status)) == []
  {
    if status.Some? {
      OneSays(Parm(parm, Itoa(status.value)), name);
    }
  }

  function FirstValues(a: ApplicationConfig, name: string): seq<string> {
    if name == "AppID" then [a.appId] else if name == "EntitlementStatus" then [Itoa(a.entitlementStatus)] else []
  }

  function StatusValues(a: ApplicationConfig, name: string): seq<string> {
    if name == "AddrStatus" then Listed(a.addrStatus)
    else if name == "TC_Status" then Listed(a.tcStatus)
    else if name == "ProvStatus" then Listed(a.provStatus)
    else []
  }

  function FlowValues(a: ApplicationConfig, name: string): seq<string> {
    if name == "ServiceFlow_URL" && a.serviceFlowUrl != "" then [a.serviceFlowUrl] else []
  }

  /** What the fixed part of an application gives for a name; the names differ, so at most one
      of the three lists has anything. */
  function FixedValues(a: ApplicationConfig, name: string): seq<string> {
    FirstValues(a, name) + StatusValues(a, name) + FlowValues(a, name)
  }

  /** The fixed parameters of an application. */
  function FirstPart(a: ApplicationConfig): seq<Node> {
    [Parm("AppID", a.appId), Parm("EntitlementStatus", Itoa(a.entitlementStatus))]
  }

  function StatusPart(a: ApplicationConfig): seq<Node> {
    Optional("AddrStatus", a.addrStatus) + Optional("TC_Status", a.tcStatus) + Optional("ProvStatus", a.provStatus)
  }

  function FlowPart(a: ApplicationConfig): seq<Node> {
    if a.serviceFlowUrl != "" then [Parm("ServiceFlow_URL", a.serviceFlowUrl)] else []
  }

  lemma PartsOf(a: ApplicationConfig)
    ensures ApplicationChildren(a)
      == FirstPart(a) + StatusPart(a) + FlowPart(a) + Extras(a.extraParams) + Addresses(a.addresses)
  {
    hide Optional;
    hide Itoa;
    hide Extras;
    hide Addresses;
    var p := [Parm("AppID", a.appId), Parm("EntitlementStatus", Itoa(a.entitlementStatus))];
    Regrouped(p, Optional("AddrStatus", a.addrStatus), Optional("TC_Status", a.tcStatus),
      Optional("ProvStatus", a.provStatus));
  }

  lemma Regrouped<T>(p: seq<T>, x: seq<T>, y: seq<T>, z: seq<T>)
    ensures p + x + y + z == p + (x + y + z)
  {
  }

  lemma StatusesSay(a: ApplicationConfig, name: string)
    ensures ValuesOf(StatusPart(a), name) == StatusValues(a, name) && Inside(StatusPart(a)) == []
  {
    hide ValuesOf;
    hide Inside;
    hide Optional;
    hide Listed;
    var p, q, r := Optional("AddrStatus", a.addrStatus), Optional("TC_Status", a.tcStatus),
      Optional("ProvStatus", a.provStatus);
    OptionalSays("AddrStatus", a.addrStatus, name);
    OptionalSays("TC_Status", a.tcStatus, name);
    OptionalSays("ProvStatus", a.provStatus, name);
    ValuesAppend(p, q, name);
    ValuesAppend(p + q, r, name);
  }

  lemma FirstTwoSay(a: ApplicationConfig, name: string)
    ensures ValuesOf(FirstPart(a), name) == FirstValues(a, name) && Inside(FirstPart(a)) == []
  {
    hide ValuesOf;
    hide Inside;
    hide Itoa;
    var id, status := Parm("AppID", a.appId), Parm("EntitlementStatus", Itoa(a.entitlementStatus));
    OneSays(id, name);
    OneSays(status, name);
    ValuesAppend([id], [status], name);
    assert [id] + [status] == [id, status];
  }

  lemma FlowSays(a: ApplicationConfig, name: string)
    ensures ValuesOf(FlowPart(a), name) == FlowValues(a, name) && Inside(FlowPart(a)) == []
  {
    hide ValuesOf;
    hide Inside;
    if a.serviceFlowUrl != "" {
      OneSays(Parm("ServiceFlow_URL", a.serviceFlowUrl), name);
    } else {
      NothingSays(name);
    }
  }

  lemma NothingSays(name: string)
    ensures ValuesOf([], name) == [] && Inside([]) == []
  {
  }

  /** An application says its own id and statuses, the optional ones when set, its extra
      parameters after them, and its addresses. */
  lemma ApplicationSays(a: ApplicationConfig, name: string)
    ensures ValuesOf(ApplicationChildren(a), name) == FixedValues(a, name) + ExtraValues(a.extraParams, name)
    ensures Inside(ApplicationChildren(a)) == Addresses(a.addresses)
  {
    hide ValuesOf;
    hide Inside;
    hide Optional;
    hide Extras;
    hide Addresses;
    hide ExtraValues;
    hide FirstPart;
    hide StatusPart;
    hide FlowPart;
    hide FirstValues;
    hide StatusValues;
    hide FlowValues;
    hide ApplicationChildren;
    var p, q, r := FirstPart(a), StatusPart(a), FlowPart(a);
    FirstTwoSay(a, name);
    StatusesSay(a, name);
    FlowSays(a, name);
    ExtrasSay(a.extraParams, name);
    AddressesSay(a.addresses, name);
    ValuesAppend(p, q, name);
    ValuesAppend(p + q, r, name);
    ValuesAppend(p + q + r, Extras(a.extraParams), name);
    ValuesAppend(p + q + r + Extras(a.extraParams), Addresses(a.addresses), name);
    PartsOf(a);
  }

  /** The whole document: VERS, TOKEN, then one APPLICATION each, in order. */
  lemma {:induction false} ApplicationsSay(apps: seq<ApplicationConfig>)
    ensures |ApplicationNodes(apps)| == |apps|
    ensures forall i :: 0 <= i < |apps| ==>
      ApplicationNodes(apps)[i] == Characteristic("APPLICATION", ApplicationChildren(apps[i]))
  {
    hide ApplicationChildren;
    if apps != [] {
      ApplicationsSay(apps[1..]);
    }
  }

  lemma DocumentSays(r: ServiceResponse)
    ensures var ns := DocumentOf(r);
      && |ns| == 2 + |r.applications|
      && ns[0] == Characteristic("VERS", [Parm("version", r.version), Parm("validity", Itoa(r.validity))])
      && ns[1] == Characteristic("TOKEN", [Parm("token", r.token)])
      && forall i :: 0 <= i < |r.applications| ==>
        ns[2..][i] == Characteristic("APPLICATION", ApplicationChildren(r.applications[i]))
  {
    hide ApplicationChildren;
    ApplicationsSay(r.applications);
    assert DocumentOf(r)[2..] == ApplicationNodes(r.applications);
  }

  // ---------------------------------------------------------------- numbers

  /** A decimal number read back, minus sign and all. */
  function Decimal(s: string): int {
    if s != "" && s[0] == '-' then -Natural(s[1..]) else Natural(s)
  }

  function Natural(s: string): int {
    if s == "" then 0 else 10 * Natural(s[..|s| - 1]) + (s[|s| - 1] as int - '0' as int)
  }

  lemma DigitIs(d: nat)
    requires d < 10
    ensures Digit(d) as int - '0' as int == d && Digit(d) != '-'
  {
    assert Digit(d) == "0123456789"[d];
  }

  lemma {:induction false} NaturalItoa(n: nat)
    ensures Natural(Itoa(n)) == n && Itoa(n) != "" && Itoa(n)[0] != '-'
    decreases n
  {
    if n < 10 {
      DigitIs(n);
      assert [Digit(n)][..0] == "";
    } else {
      NaturalItoa(n / 10);
      DigitIs(n % 10);
      var s := Itoa(n / 10) + [Digit(n % 10)];
      assert s[..|s| - 1] == Itoa(n / 10);
    }
  }

  lemma NegativeItoa(n: int)
    requires n < 0
    ensures Itoa(n) == "-" + Itoa(-n)
  {
  }

  lemma ItoaReads(n: int)
    ensures Decimal(Itoa(n)) == n
  {
    hide Itoa;
    hide Natural;
    if n < 0 {
      NaturalItoa(-n);
      NegativeItoa(n);
      assert ("-" + Itoa(-n))[1..] == Itoa(-n);
    } else {
      NaturalItoa(n);
    }
  }

  // ---------------------------------------------------------------- the text itself

  /** A small document, letter for letter. */
  lemma SmallDocument(kind: string, name: string, value: string)
    ensures Joined(DocumentLines([Characteristic(kind, [Parm(name, value)])])) ==
      "<?xml version=\"1.0\"?>" + ("\n" + ("<wap-provisioningdoc version=\"1.1\">" + ("\n"
      + ("  <characteristic type=\"" + kind + "\">" + ("\n"
      + ("    <parm name=\"" + Escaped(name) + "\" value=\"" + Escaped(value) + "\"/>" + ("\n"
      + ("  </characteristic>" + ("\n" + "</wap-provisioningdoc>")))))))))
  {
    hide Escaped;
    hide LineText;
    hide Joined;
    hide DocumentLines;
    var a, b := Line("", Prolog), Line("", DocOpen);
    var o, p, e, z := Line("  ", Open(kind)), Line("    ", ParmTag(name, value)), Line("  ", Close), Line("", DocClose);
    SmallLines(kind, name, value);
    JoinMore(e, [z]);
    JoinMore(p, [e] + [z]);
    JoinMore(o, [p] + ([e] + [z]));
    JoinMore(b, [o] + ([p] + ([e] + [z])));
    JoinMore(a, [b] + ([o] + ([p] + ([e] + [z]))));
    JoinLast(z);
    FixedTexts();
    OpenText(kind);
    ParmText(name, value);
  }

  lemma SmallLines(kind: string, name: string, value: string)
    ensures DocumentLines([Characteristic(kind, [Parm(name, value)])]) == [Line("", Prolog)] + ([Line("", DocOpen)]
      + ([Line("  ", Open(kind))] + ([Line("    ", ParmTag(name, value))]
      + ([Line("  ", Close)] + [Line("", DocClose)]))))
    ensures DocumentLines([Characteristic(kind, [Parm(name, value)])]) == [Line("", Prolog), Line("", DocOpen),
      Line("  ", Open(kind)), Line("    ", ParmTag(name, value)), Line("  ", Close), Line("", DocClose)]
  {
    var one := [Parm(name, value)];
    var all := [Characteristic(kind, one)];
    assert "  " + "  " == "    ";
    assert one[1..] == [] && all[1..] == [];
    assert NodesLines([], "    ") == [] && NodesLines([], "  ") == [];
    assert NodesLines(one, "    ") == [Line("    ", ParmTag(name, value))];
    assert NodeLines(all[0], "  ")
      == [Line("  ", Open(kind)), Line("    ", ParmTag(name, value)), Line("  ", Close)];
    assert NodesLines(all, "  ") == NodeLines(all[0], "  ") + [];
  }

  lemma JoinMore(l: Line, rest: seq<Line>)
    requires rest != []
    ensures Joined([l] + rest) == LineText(l) + ("\n" + Joined(rest))
  {
    hide LineText;
    assert ([l] + rest)[1..] == rest;
  }

  lemma JoinLast(l: Line)
    ensures Joined([l]) == LineText(l)
  {
    hide LineText;
  }

  lemma FixedTexts()
    ensures LineText(Line("", Prolog)) == "<?xml version=\"1.0\"?>"
    ensures LineText(Line("", DocOpen)) == "<wap-provisioningdoc version=\"1.1\">"
    ensures LineText(Line("  ", Close)) == "  </characteristic>"
    ensures LineText(Line("", DocClose)) == "</wap-provisioningdoc>"
  {
    assert "" + PROLOG == PROLOG && "" + DOC_OPEN == DOC_OPEN && "" + DOC_CLOSE == DOC_CLOSE;
  }

  lemma OpenText(kind: string)
    ensures LineText(Line("  ", Open(kind))) == "  <characteristic type=\"" + kind + "\">"
  {
    OpenPrefix();
    Flat4("  ", OPEN, kind, OPEN_END);
  }

  lemma OpenPrefix()
    ensures "  " + OPEN == "  <characteristic type=\""
  {
  }

  lemma Flat4(a: string, b: string, k: string, d: string)
    ensures a + (b + (k + d)) == a + b + k + d
  {
  }

  lemma ParmText(name: string, value: string)
    ensures LineText(Line("    ", ParmTag(name, value)))
      == "    <parm name=\"" + Escaped(name) + "\" value=\"" + Escaped(value) + "\"/>"
  {
    hide Escaped;
    ParmPrefix();
    Flat6("    ", PARM, Escaped(name), PARM_VALUE, Escaped(value), PARM_END);
  }

  lemma ParmPrefix()
    ensures "    " + PARM == "    <parm name=\""
  {
  }

  lemma Flat6(a: string, b: string, n: string, d: string, v: string, e: string)
    ensures a + (b + (n + (d + (v + e)))) == a + b + n + d + v + e
  {
  }
}
