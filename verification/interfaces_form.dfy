/** The network interface form: how aliases travel between the
    `address/netmask` text box and the `{address, netmask}` records of the
    backend, which field groups each interface type shows, and the counter
    behind the "add alias" / "remove alias" actions.

    The form framework, the backend calls and the option lists loaded from
    the network service stay outside; the calls this component makes on the
    form (`setDisabled`) and on the network service are returned as data. */
module InterfacesForm {
  import opened Optional
  import opened JsText
  import opened Sequences

  // ---------------------------------------------------------------------
  // Aliases
  // ---------------------------------------------------------------------

  /** One row of the form's `aliases` array: the text box holding
      `address/netmask` (empty when nothing was typed) and the delete box. */
  datatype FormAlias = FormAlias(address: string, delete: bool)

  /** An alias as `clean` hands it to interface.create / interface.update;
      a netmask that does not parse is NaN (`None`). */
  datatype Alias = Alias(address: string, netmask: Option<int>)

  /** An alias as interface.query returns it. */
  datatype RestAlias = RestAlias(address: string, netmask: int)

  /** What `preHandler` keeps of an alias: the object `{address}`. */
  datatype AliasAddress = AliasAddress(address: string)

  /** `clean` keeps a row whose delete box is not ticked and whose address
      is not empty. */
  predicate IsLiveRow(row: FormAlias) {
    !row.delete && row.address != ""
  }

  /** The alias `clean` builds from one text box: the text before the first
      '/' is the address, and the text after it (up to a second '/', if any)
      read by `parseInt(…, 10)` is the netmask. */
  function ParseAlias(text: string): (a: Alias)
    ensures a.address == text[..IndexOf(text, '/')]
    ensures '/' !in text ==> a.netmask.None?
    ensures '/' in text ==>
              var rest := text[IndexOf(text, '/') + 1..];
              a.netmask == ParseInt(rest[..IndexOf(rest, '/')])
  {
    var strings := Split(text, '/');
    SplitSecond(text, '/');
    Alias(strings[0], if |strings| > 1 then ParseInt(strings[1]) else None)
  }

  function ParseRow(row: FormAlias): Alias {
    ParseAlias(row.address)
  }

  /** What `clean` writes back into `data.aliases`. */
  function Cleaned(rows: seq<FormAlias>): seq<Alias> {
    FilterMap(rows, IsLiveRow, ParseRow)
  }

  /** `clean`: the index loop that pushes one alias per live row. */
  method Clean(rows: seq<FormAlias>) returns (aliases: seq<Alias>)
    ensures aliases == Cleaned(rows)
  {
    aliases := [];
    var i := 0;
    while i < |rows|
      invariant 0 <= i <= |rows|
      invariant aliases == Cleaned(rows[..i])
    {
      assert rows[..i + 1][..i] == rows[..i];
      if !rows[i].delete && rows[i].address != "" {
        var strings := Split(rows[i].address, '/');
        aliases := aliases + [Alias(strings[0], if |strings| > 1 then ParseInt(strings[1]) else None)];
      }
      i := i + 1;
    }
    assert rows[..i] == rows;
  }

  /** `clean` drops exactly the rows that are ticked for deletion or empty
      and keeps the parse of every other row, in the original order: its
      k-th alias is the parse of the k-th live row. */
  lemma {:induction false} CleanKeepsLiveRowsInOrder(rows: seq<FormAlias>)
    ensures var live := KeptIndices(rows, IsLiveRow);
            && |Cleaned(rows)| == |live| <= |rows|
            && (forall i :: 0 <= i < |rows| ==> (i in live <==> IsLiveRow(rows[i])))
            && (forall k :: 0 <= k < |live| ==> Cleaned(rows)[k] == ParseAlias(rows[live[k]].address))
  {
    FilterMapIsKeptImage(rows, IsLiveRow, ParseRow);
  }

  /** What `preHandler` returns. */
  function PreHandled(data: seq<RestAlias>): seq<AliasAddress> {
    FilterMap(data, HasNetmask, AddressOnly)
  }

  /** `if (alias.netmask)`: a netmask of 0 is falsy. */
  predicate HasNetmask(a: RestAlias) {
    a.netmask != 0
  }

  function AddressOnly(a: RestAlias): AliasAddress {
    AliasAddress(a.address)
  }

  /** `preHandler`: the index loop that pushes `{address}` for every alias
      with a truthy netmask. */
  method PreHandler(data: seq<RestAlias>) returns (aliases: seq<AliasAddress>)
    ensures aliases == PreHandled(data)
  {
    aliases := [];
    var i := 0;
    while i < |data|
      invariant 0 <= i <= |data|
      invariant aliases == PreHandled(data[..i])
    {
      assert data[..i + 1][..i] == data[..i];
      var alias := data[i];
      if alias.netmask != 0 {
        aliases := aliases + [AliasAddress(alias.address)];
      }
      i := i + 1;
    }
    assert data[..i] == data;
  }

  /** `preHandler` returns `{address}` for exactly the aliases with a
      non-zero netmask, in input order, so never more than it was given. */
  lemma {:induction false} PreHandlerKeepsMaskedAddresses(data: seq<RestAlias>)
    ensures var kept := KeptIndices(data, HasNetmask);
            && |PreHandled(data)| == |kept| <= |data|
            && (forall i :: 0 <= i < |data| ==> (i in kept <==> data[i].netmask != 0))
            && (forall k :: 0 <= k < |kept| ==> PreHandled(data)[k] == AliasAddress(data[kept[k]].address))
  {
    FilterMapIsKeptImage(data, HasNetmask, AddressOnly);
  }

  /** The text `resourceTransformIncomingRestData` puts in the address box:
      `address + '/' + netmask`. */
  function PrefixText(a: RestAlias): string {
    a.address + "/" + IntToString(a.netmask)
  }

  /** One row per alias, holding its prefix text, delete box clear. */
  function EditRows(aliases: seq<RestAlias>): (rows: seq<FormAlias>)
    ensures |rows| == |aliases|
    ensures forall i :: 0 <= i < |aliases| ==> rows[i] == FormAlias(PrefixText(aliases[i]), false)
  {
    seq(|aliases|, i requires 0 <= i < |aliases| => FormAlias(PrefixText(aliases[i]), false))
  }

  /** The aliases as the backend sent them, in the shape `clean` produces. */
  function AsSubmitted(aliases: seq<RestAlias>): (r: seq<Alias>)
    ensures |r| == |aliases|
    ensures forall i :: 0 <= i < |aliases| ==> r[i] == Alias(aliases[i].address, Some(aliases[i].netmask))
  {
    seq(|aliases|, i requires 0 <= i < |aliases| => Alias(aliases[i].address, Some(aliases[i].netmask)))
  }

  /** One alias survives the trip box-and-back: joined with '/' and split
      again it gives its address and netmask back. */
  lemma PrefixTextRoundTrip(a: RestAlias)
    requires '/' !in a.address
    ensures IsLiveRow(FormAlias(PrefixText(a), false))
    ensures ParseAlias(PrefixText(a)) == Alias(a.address, Some(a.netmask))
  {
    var digits := IntToString(a.netmask);
    assert '/' !in digits by {
      forall i | 0 <= i < |digits| ensures digits[i] != '/' {
        assert IsDigit(digits[i]) || digits[i] == '-' by {
          if a.netmask >= 0 { } else { assert digits[1..] == NatToDigits(-a.netmask); if i > 0 { assert digits[i] == digits[1..][i - 1]; } }
        }
      }
    }
    SplitOfPair(a.address, digits, '/');
    assert a.address + "/" + digits == a.address + ['/'] + digits;
    ParseIntOfIntToString(a.netmask);
  }

  /** Rows holding each alias's prefix text clean back to the aliases: every
      alias whose address holds no '/' comes back from `clean` with the
      same address and netmask, in the same order. */
  lemma EditRoundTrip(aliases: seq<RestAlias>)
    requires forall i :: 0 <= i < |aliases| ==> '/' !in aliases[i].address
    ensures Cleaned(EditRows(aliases)) == AsSubmitted(aliases)
  {
    var rows := EditRows(aliases);
    forall i | 0 <= i < |rows|
      ensures IsLiveRow(rows[i]) && ParseRow(rows[i]) == AsSubmitted(aliases)[i]
    {
      PrefixTextRoundTrip(aliases[i]);
    }
    FilterMapAllKept(rows, IsLiveRow, ParseRow);
  }

  /** The aliases after `resourceTransformIncomingRestData`: each address
      replaced by its prefix text, the netmask kept. */
  function Transformed(aliases: seq<RestAlias>): (r: seq<RestAlias>)
    ensures |r| == |aliases|
    ensures forall i :: 0 <= i < |aliases| ==> r[i] == aliases[i].(address := PrefixText(aliases[i]))
  {
    seq(|aliases|, i requires 0 <= i < |aliases| => aliases[i].(address := PrefixText(aliases[i])))
  }

  lemma TransformedSnoc(aliases: seq<RestAlias>, a: RestAlias)
    ensures Transformed(aliases + [a]) == Transformed(aliases) + [a.(address := PrefixText(a))]
  {
    assert forall i :: 0 <= i < |aliases| ==> (aliases + [a])[i] == aliases[i];
  }

  /** The form rows built from what `preHandler` returns: one box per
      `{address}`, delete box clear. */
  function RowsOf(addrs: seq<AliasAddress>): (rows: seq<FormAlias>)
    ensures |rows| == |addrs|
    ensures forall i :: 0 <= i < |addrs| ==> rows[i] == FormAlias(addrs[i].address, false)
  {
    seq(|addrs|, i requires 0 <= i < |addrs| => FormAlias(addrs[i].address, false))
  }

  lemma RowsOfSnoc(addrs: seq<AliasAddress>, x: AliasAddress)
    ensures RowsOf(addrs + [x]) == RowsOf(addrs) + [FormAlias(x.address, false)]
  {
    assert forall i :: 0 <= i < |addrs| ==> (addrs + [x])[i] == addrs[i];
  }

  /** An alias as received, in the shape `clean` produces. */
  function Submitted(a: RestAlias): Alias {
    Alias(a.address, Some(a.netmask))
  }

  /** The edit page's whole trip: the addresses rewritten to prefix text by
      `resourceTransformIncomingRestData`, filtered by `preHandler`, put in
      rows and cleaned again give back, in order, exactly the loaded aliases
      with a non-zero netmask; an alias with netmask 0 is lost on the way. */
  lemma {:induction false} EditPageRoundTrip(aliases: seq<RestAlias>)
    requires forall i :: 0 <= i < |aliases| ==> '/' !in aliases[i].address
    ensures Cleaned(RowsOf(PreHandled(Transformed(aliases)))) == FilterMap(aliases, HasNetmask, Submitted)
  {
    if |aliases| > 0 {
      var n := |aliases| - 1;
      var init, a := aliases[..n], aliases[n];
      EditPageRoundTrip(init);
      var ta := a.(address := PrefixText(a));
      TransformedSnoc(init, a);
      assert aliases == init + [a];
      var front := PreHandled(Transformed(init));
      FilterMapSnoc(Transformed(init), ta, HasNetmask, AddressOnly);
      FilterMapSnoc(init, a, HasNetmask, Submitted);
      if HasNetmask(a) {
        var row := FormAlias(PrefixText(a), false);
        PrefixTextRoundTrip(a);
        calc {
          Cleaned(RowsOf(PreHandled(Transformed(aliases))));
          Cleaned(RowsOf(front + [AliasAddress(PrefixText(a))]));
          { RowsOfSnoc(front, AliasAddress(PrefixText(a))); }
          Cleaned(RowsOf(front) + [row]);
          { FilterMapSnoc(RowsOf(front), row, IsLiveRow, ParseRow); }
          Cleaned(RowsOf(front)) + [ParseRow(row)];
          FilterMap(init, HasNetmask, Submitted) + [Submitted(a)];
        }
      } else {
        assert PreHandled(Transformed(aliases)) == front;
      }
    }
  }

  // ---------------------------------------------------------------------
  // Field groups by interface type
  // ---------------------------------------------------------------------

  const VlanFields: seq<string> := ["vlan_tag", "vlan_pcp", "vlan_parent_interface"]
  const LaggFields: seq<string> := ["lag_protocol", "lag_ports"]
  const BridgeFields: seq<string> := ["bridge_members"]
  const FailoverFields: seq<string> := ["failover_critical", "failover_group"]

  /** One call `entityForm.setDisabled(name, disable, hide)`; the name is
      `undefined` (`None`) when it was read past the end of a list, and the
      hide argument is `undefined` when the caller leaves it out. */
  datatype SetDisabledCall = SetDisabledCall(name: Option<string>, disable: bool, hide: Option<bool>)

  /** The calls `setType` makes, loop by loop. */
  function SetTypeCalls(ifType: string): (calls: seq<SetDisabledCall>)
    ensures |calls| == |VlanFields| + |LaggFields| + |VlanFields| == 8
    ensures forall k :: 0 <= k < |calls| ==> calls[k].hide == Some(calls[k].disable)
    ensures forall k :: 0 <= k < 3 ==>
              calls[k].name == Some(VlanFields[k]) && (calls[k].disable <==> ifType != "VLAN")
    ensures forall k :: 3 <= k < 5 ==>
              calls[k].name == Some(LaggFields[k - 3]) && (calls[k].disable <==> ifType != "LINK_AGGREGATION")
    ensures calls[5].name == Some("bridge_members") && calls[6].name.None? && calls[7].name.None?
    ensures forall k :: 5 <= k < 8 ==> (calls[k].disable <==> ifType != "BRIDGE")
    ensures forall k, f :: 0 <= k < |calls| && f in FailoverFields ==> calls[k].name != Some(f)
  {
    var isVlan, isBridge, isLagg := ifType == "VLAN", ifType == "BRIDGE", ifType == "LINK_AGGREGATION";
    seq(|VlanFields|, i requires 0 <= i < |VlanFields| => SetDisabledCall(Some(VlanFields[i]), !isVlan, Some(!isVlan)))
    + seq(|LaggFields|, i requires 0 <= i < |LaggFields| => SetDisabledCall(Some(LaggFields[i]), !isLagg, Some(!isLagg)))
    + seq(|VlanFields|, i requires 0 <= i < |VlanFields| =>
          SetDisabledCall(if i < |BridgeFields| then Some(BridgeFields[i]) else None, !isBridge, Some(!isBridge)))
  }

  /** `setType`: three loops of `setDisabled` calls. The third loop runs
      over the length of the VLAN list while indexing the bridge list. */
  method SetType(ifType: string) returns (calls: seq<SetDisabledCall>)
    ensures calls == SetTypeCalls(ifType)
  {
    var isVlan := ifType == "VLAN";
    var isBridge := ifType == "BRIDGE";
    var isLagg := ifType == "LINK_AGGREGATION";
    var expected := SetTypeCalls(ifType);
    calls := [];
    for i := 0 to |VlanFields|
      invariant calls == expected[..i]
    {
      calls := calls + [SetDisabledCall(Some(VlanFields[i]), !isVlan, Some(!isVlan))];
    }
    for i := 0 to |LaggFields|
      invariant calls == expected[..3 + i]
    {
      calls := calls + [SetDisabledCall(Some(LaggFields[i]), !isLagg, Some(!isLagg))];
    }
    for i := 0 to |VlanFields|
      invariant calls == expected[..5 + i]
    {
      var name := if i < |BridgeFields| then Some(BridgeFields[i]) else None;
      calls := calls + [SetDisabledCall(name, !isBridge, Some(!isBridge))];
    }
    assert calls == expected[..8];
  }

  /** The option list `resourceTransformIncomingRestData` asks the network
      service for, by interface id. */
  datatype ChoicesRequest = NoRequest | LaggPortsOf(id: string) | BridgeMembersOf(id: string)

  /** The alias loop of `resourceTransformIncomingRestData`: each address
      becomes its prefix text, in place; the netmasks stay. */
  method WritePrefixTexts(aliases: array<RestAlias>)
    modifies aliases
    ensures forall i :: 0 <= i < aliases.Length ==>
              aliases[i] == old(aliases[i]).(address := PrefixText(old(aliases[i])))
    ensures aliases[..] == Transformed(old(aliases[..]))
  {
    for i := 0 to aliases.Length
      invariant forall k :: 0 <= k < i ==> aliases[k] == old(aliases[k]).(address := PrefixText(old(aliases[k])))
      invariant forall k :: i <= k < aliases.Length ==> aliases[k] == old(aliases[k])
    {
      aliases[i] := aliases[i].(address := aliases[i].address + "/" + IntToString(aliases[i].netmask));
    }
  }

  /** `resourceTransformIncomingRestData`: rewrites every alias address in
      place to its prefix text, applies `setType`, then asks for the port or
      member choices of a link aggregation or a bridge, or disables the VLAN
      parent box. */
  method TransformIncomingRestData(aliases: array<RestAlias>, ifType: string, id: string)
    returns (calls: seq<SetDisabledCall>, request: ChoicesRequest)
    modifies aliases
    ensures forall i :: 0 <= i < aliases.Length ==>
              aliases[i] == old(aliases[i]).(address := PrefixText(old(aliases[i])))
    ensures calls == SetTypeCalls(ifType)
                     + (if ifType == "VLAN" then [SetDisabledCall(Some("vlan_parent_interface"), true, None)] else [])
    ensures request == (if ifType == "LINK_AGGREGATION" then LaggPortsOf(id)
                        else if ifType == "BRIDGE" then BridgeMembersOf(id)
                        else NoRequest)
  {
    WritePrefixTexts(aliases);
    calls := SetType(ifType);
    request := NoRequest;
    if ifType == "LINK_AGGREGATION" {
      request := LaggPortsOf(id);
    } else if ifType == "BRIDGE" {
      request := BridgeMembersOf(id);
    } else if ifType == "VLAN" {
      calls := calls + [SetDisabledCall(Some("vlan_parent_interface"), true, None)];
    }
  }

  // ---------------------------------------------------------------------
  // The alias counter and the custom actions
  // ---------------------------------------------------------------------

  const AddAliasAction := "add_alias"
  const RemoveAliasAction := "remove_alias"

  /** `isCustActionVisible`, on the two counters it reads. */
  function CustActionVisible(actionId: string, count: int, defaultCount: int): (visible: bool)
    ensures actionId != RemoveAliasAction ==> visible
    ensures actionId == RemoveAliasAction ==> (visible <==> count > defaultCount)
  {
    !(actionId == RemoveAliasAction && count <= defaultCount)
  }

  /** The alias counter after the function of an action has run. */
  function CountAfterAction(actionId: string, count: int): int {
    if actionId == AddAliasAction then count + 1
    else if actionId == RemoveAliasAction then count - 1
    else count
  }

  /** The counter after a user clicks the given actions in turn; the form
      shows an action's button only while it is visible, so a click on a
      hidden action does nothing. */
  function CountAfterClicks(count: int, defaultCount: int, clicks: seq<string>): int
    decreases |clicks|
  {
    if |clicks| == 0 then count
    else
      var next := if CustActionVisible(clicks[0], count, defaultCount)
                  then CountAfterAction(clicks[0], count) else count;
      CountAfterClicks(next, defaultCount, clicks[1..])
  }

  /** Since "remove alias" is only offered above the default, no sequence of
      clicks takes the counter below the default; and the counter moves by
      at most one per click. */
  lemma {:induction false} ClicksKeepCountAtLeastDefault(count: int, defaultCount: int, clicks: seq<string>)
    requires count >= defaultCount
    ensures defaultCount <= CountAfterClicks(count, defaultCount, clicks) <= count + |clicks|
    decreases |clicks|
  {
    if |clicks| > 0 {
      var next := if CustActionVisible(clicks[0], count, defaultCount)
                  then CountAfterAction(clicks[0], count) else count;
      ClicksKeepCountAtLeastDefault(next, defaultCount, clicks[1..]);
    }
  }

  /** The form's own state: the two `initialCount` dictionaries, the
      `initialCount` of the aliases field, the kind of the type field and
      whether saving asks for confirmation. */
  class InterfacesFormState {
    var initialCount: map<string, int>
    var initialCountDefault: map<string, int>
    var aliasesFieldInitialCount: int
    var typeFieldKind: string
    var confirmSubmit: bool

    ghost predicate Valid()
      reads this
    {
      "aliases" in initialCount && "aliases" in initialCountDefault
    }

    function AliasCount(): int
      reads this
      requires Valid()
    {
      initialCount["aliases"]
    }

    function DefaultAliasCount(): int
      reads this
      requires Valid()
    {
      initialCountDefault["aliases"]
    }

    /** The state of a new form, as its field initialisers set it. */
    constructor ()
      ensures Valid()
      ensures initialCount == map["aliases" := 1] && initialCountDefault == map["aliases" := 1]
      ensures aliasesFieldInitialCount == 1 && typeFieldKind == "select" && !confirmSubmit
    {
      initialCount := map["aliases" := 1];
      initialCountDefault := map["aliases" := 1];
      aliasesFieldInitialCount := 1;
      typeFieldKind := "select";
      confirmSubmit := false;
    }

    /** `isCustActionVisible`: only "remove alias" can be hidden, and it is
        hidden while the counter is at or below its default. */
    function IsCustActionVisible(actionId: string): (visible: bool)
      reads this
      requires Valid()
      ensures !visible <==> actionId == RemoveAliasAction && AliasCount() <= DefaultAliasCount()
    {
      CustActionVisible(actionId, AliasCount(), DefaultAliasCount())
    }

    /** The "add alias" action: one more alias; the new group is inserted
        at the new count, which is returned. */
    method AddAlias() returns (insertAt: int)
      requires Valid()
      modifies this`initialCount
      ensures Valid()
      ensures AliasCount() == old(AliasCount()) + 1 == CountAfterAction(AddAliasAction, old(AliasCount()))
      ensures initialCount == old(initialCount)["aliases" := old(AliasCount()) + 1]
      ensures insertAt == AliasCount()
    {
      initialCount := initialCount["aliases" := initialCount["aliases"] + 1];
      insertAt := initialCount["aliases"];
    }

    /** The "remove alias" action: one alias fewer; the group at the new
        count is removed, which is returned. */
    method RemoveAlias() returns (removeAt: int)
      requires Valid()
      modifies this`initialCount
      ensures Valid()
      ensures AliasCount() == old(AliasCount()) - 1 == CountAfterAction(RemoveAliasAction, old(AliasCount()))
      ensures initialCount == old(initialCount)["aliases" := old(AliasCount()) - 1]
      ensures removeAt == AliasCount()
    {
      initialCount := initialCount["aliases" := initialCount["aliases"] - 1];
      removeAt := initialCount["aliases"];
    }

    /** `preInit`, on the route's `pk` parameter. Without a (non-empty) pk
        the type box stays a select; with one, saving asks for confirmation
        and the default alias count and the aliases field's initial count
        drop to 0. The alias counter itself keeps its value: the zero is
        written under the key "ipv4_aliases". */
    method PreInit(pk: Option<string>)
      requires Valid()
      modifies this
      ensures Valid()
      ensures AliasCount() == old(AliasCount())
      ensures pk.None? || pk == Some("") ==>
                && typeFieldKind == "select"
                && initialCount == old(initialCount) && initialCountDefault == old(initialCountDefault)
                && aliasesFieldInitialCount == old(aliasesFieldInitialCount)
                && confirmSubmit == old(confirmSubmit)
      ensures pk.Some? && pk != Some("") ==>
                && confirmSubmit && DefaultAliasCount() == 0 && aliasesFieldInitialCount == 0
                && initialCount == old(initialCount)["ipv4_aliases" := 0]
                && initialCountDefault == old(initialCountDefault)["aliases" := 0]
                && typeFieldKind == old(typeFieldKind)
    {
      if pk.None? || pk == Some("") {
        typeFieldKind := "select";
      } else {
        confirmSubmit := true;
        initialCountDefault := initialCountDefault["aliases" := 0];
        initialCount := initialCount["ipv4_aliases" := 0];
        aliasesFieldInitialCount := 0;
      }
    }
  }
}
