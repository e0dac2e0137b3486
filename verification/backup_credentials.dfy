/** The backup-credentials dashboard: the credentials returned by the two
    queries are sorted into three lists (cloud credentials, SSH connections
    and SSH key pairs), a fixed table of three cards shows one list each,
    and the "add" action of a card opens the form for its kind.

    The two backend queries are inputs; the modal that opens the form is
    left out, and `doAdd` returns the form it would open. */
module BackupCredentials {
  import opened Optional
  import opened Sequences

  /** The credential types of keychain credentials that have a list. */
  const SshKeyPair := "SSH_KEY_PAIR"
  const SshCredentials := "SSH_CREDENTIALS"

  /** A credential as the queries return it; `kind` is its `type` (for a
      cloud credential, its provider). */
  datatype Credential = Credential(id: int, name: string, kind: string)

  /** Which of the page's lists a card shows. A card holds the list itself,
      not a copy, so later appends show in it. */
  datatype CardSource = CloudCreds | SshCreds | SshKeypairs

  datatype Card = Card(name: string, flex: int, labelText: string, dataSource: CardSource,
                       displayedColumns: seq<string>)

  /** The three add/edit forms of the page. */
  datatype FormComponent = CloudCredentialsForm | SshConnectionsForm | SshKeypairsForm

  /** The card table `getCreds` installs. */
  const Cards: seq<Card> := [
    Card("cloudCredentials", 40, "Cloud Credentials", CloudCreds, ["name", "provider", "actions"]),
    Card("sshConnections", 30, "SSH Connections", SshCreds, ["name", "actions"]),
    Card("sshKeypairs", 30, "SSH Keypairs", SshKeypairs, ["name", "actions"])
  ]

  /** The credentials of the given type. */
  function HasKind(kind: string): Credential -> bool {
    (c: Credential) => c.kind == kind
  }

  /** The credentials of `creds` whose type is `kind`, in query order. */
  function OfKind(creds: seq<Credential>, kind: string): seq<Credential> {
    FilterMap(creds, HasKind(kind), Id)
  }

  /** Sorting by type keeps, in query order, exactly the credentials of
      that type: the list holds nothing of another type, and a credential
      is listed once for each time the query returned it. */
  lemma {:induction false} OfKindKeepsExactlyThatKind(creds: seq<Credential>, kind: string)
    ensures var idx := KeptIndices(creds, HasKind(kind));
            var r := OfKind(creds, kind);
            && |r| == |idx| <= |creds|
            && (forall c :: c in r ==> c.kind == kind && c in creds)
            && (forall i :: 0 <= i < |creds| ==> (i in idx <==> creds[i].kind == kind))
            && (forall k, l :: 0 <= k < l < |idx| ==> idx[k] < idx[l])
            && (forall k :: 0 <= k < |idx| ==> r[k] == creds[idx[k]])
  {
    FilterMapIsKeptImage(creds, HasKind(kind), Id);
    var idx := KeptIndices(creds, HasKind(kind));
    var r := OfKind(creds, kind);
    forall c | c in r ensures c.kind == kind && c in creds {
      var k :| 0 <= k < |r| && r[k] == c;
      assert creds[idx[k]] == c;
    }
  }

  /** No keychain credential lands in both SSH lists, and together they
      hold no more credentials than the query returned; when every
      credential is of one of the two types, none is dropped. */
  lemma {:induction false} KeychainSplitIsPartition(keychain: seq<Credential>)
    ensures forall c :: c in OfKind(keychain, SshKeyPair) ==> c !in OfKind(keychain, SshCredentials)
    ensures |OfKind(keychain, SshKeyPair)| + |OfKind(keychain, SshCredentials)| <= |keychain|
    ensures (forall c :: c in keychain ==> c.kind == SshKeyPair || c.kind == SshCredentials) ==>
              |OfKind(keychain, SshKeyPair)| + |OfKind(keychain, SshCredentials)| == |keychain|
  {
    OfKindHasThatKind(keychain, SshKeyPair);
    OfKindHasThatKind(keychain, SshCredentials);
    SplitCount(keychain);
    if forall c :: c in keychain ==> c.kind == SshKeyPair || c.kind == SshCredentials {
      NoOthers(keychain);
    }
  }

  /** Everything a type's list holds is of that type and was returned by
      the query. */
  lemma {:induction false} OfKindHasThatKind(creds: seq<Credential>, kind: string)
    ensures forall c :: c in OfKind(creds, kind) ==> c.kind == kind && c in creds
  {
    if |creds| > 0 {
      var init := creds[..|creds| - 1];
      OfKindHasThatKind(init, kind);
      assert forall c :: c in init ==> c in creds;
    }
  }

  /** A query of SSH credentials only drops nothing. */
  lemma NoOthers(keychain: seq<Credential>)
    requires forall c :: c in keychain ==> c.kind == SshKeyPair || c.kind == SshCredentials
    ensures Others(keychain) == []
  {
  }

  /** The two SSH lists and the dropped credentials account for every
      keychain credential. */
  lemma {:induction false} SplitCount(keychain: seq<Credential>)
    ensures |OfKind(keychain, SshKeyPair)| + |OfKind(keychain, SshCredentials)| + |Others(keychain)| == |keychain|
  {
    if |keychain| > 0 {
      SplitCount(keychain[..|keychain| - 1]);
    }
  }

  /** The keychain credentials of neither SSH type, which `getCreds` drops. */
  function Others(keychain: seq<Credential>): (r: seq<Credential>)
    ensures forall c :: c in r ==> c in keychain && c.kind != SshKeyPair && c.kind != SshCredentials
  {
    if |keychain| == 0 then []
    else
      var last := keychain[|keychain| - 1];
      Others(keychain[..|keychain| - 1]) + (if last.kind != SshKeyPair && last.kind != SshCredentials then [last] else [])
  }

  /** `doAdd`: the form for a card name; none for any other name. */
  function AddComponentFor(form: string): (c: Option<FormComponent>)
    ensures c.Some? <==> form == "cloudCredentials" || form == "sshConnections" || form == "sshKeypairs"
  {
    if form == "cloudCredentials" then Some(CloudCredentialsForm)
    else if form == "sshConnections" then Some(SshConnectionsForm)
    else if form == "sshKeypairs" then Some(SshKeypairsForm)
    else None
  }

  /** The list a form adds to. */
  function FormSource(form: FormComponent): CardSource {
    match form
    case CloudCredentialsForm => CloudCreds
    case SshConnectionsForm => SshCreds
    case SshKeypairsForm => SshKeypairs
  }

  /** The card table: three cards of distinct names, one per list, whose
      widths add up to the full 100; the "add" action of each card opens
      the form for the very list the card shows. */
  lemma CardsAreComplete()
    ensures |Cards| == 3
    ensures Cards[0].flex + Cards[1].flex + Cards[2].flex == 100
    ensures forall i, j :: 0 <= i < j < |Cards| ==>
              Cards[i].name != Cards[j].name && Cards[i].dataSource != Cards[j].dataSource
    ensures {Cards[0].dataSource, Cards[1].dataSource, Cards[2].dataSource} == {CloudCreds, SshCreds, SshKeypairs}
    ensures forall i :: 0 <= i < |Cards| ==>
              AddComponentFor(Cards[i].name).Some?
              && FormSource(AddComponentFor(Cards[i].name).value) == Cards[i].dataSource
  {
  }

  /** The page: its three lists and its cards (undefined until the
      keychain query has answered). */
  class BackupCredentialsPage {
    var cloudCreds: seq<Credential>
    var sshKeypairs: seq<Credential>
    var sshCreds: seq<Credential>
    var cards: Option<seq<Card>>

    constructor ()
      ensures cloudCreds == [] && sshKeypairs == [] && sshCreds == [] && cards.None?
    {
      cloudCreds := [];
      sshKeypairs := [];
      sshCreds := [];
      cards := None;
    }

    /** The rows a card shows: the list it holds. */
    function Rows(source: CardSource): seq<Credential>
      reads this
    {
      match source
      case CloudCreds => cloudCreds
      case SshCreds => sshCreds
      case SshKeypairs => sshKeypairs
    }

    /** `getCreds`, given the answers of the two queries: every cloud
        credential is appended to the cloud list, the keychain credentials
        are appended by type to the two SSH lists, and the card table is
        installed. The lists are only ever appended to. */
    method GetCreds(cloud: seq<Credential>, keychain: seq<Credential>)
      modifies this
      ensures cloudCreds == old(cloudCreds) + cloud
      ensures sshKeypairs == old(sshKeypairs) + OfKind(keychain, SshKeyPair)
      ensures sshCreds == old(sshCreds) + OfKind(keychain, SshCredentials)
      ensures cards == Some(Cards)
      ensures Rows(Cards[0].dataSource) == cloudCreds && Rows(Cards[1].dataSource) == sshCreds
              && Rows(Cards[2].dataSource) == sshKeypairs
    {
      for i := 0 to |cloud|
        invariant cloudCreds == old(cloudCreds) + cloud[..i]
        invariant sshKeypairs == old(sshKeypairs) && sshCreds == old(sshCreds)
      {
        cloudCreds := cloudCreds + [cloud[i]];
      }
      assert cloud[..|cloud|] == cloud;
      for i := 0 to |keychain|
        invariant sshKeypairs == old(sshKeypairs) + OfKind(keychain[..i], SshKeyPair)
        invariant sshCreds == old(sshCreds) + OfKind(keychain[..i], SshCredentials)
        invariant cloudCreds == old(cloudCreds) + cloud
      {
        assert keychain[..i + 1][..i] == keychain[..i];
        var cred := keychain[i];
        if cred.kind == SshKeyPair {
          sshKeypairs := sshKeypairs + [cred];
        } else if cred.kind == SshCredentials {
          sshCreds := sshCreds + [cred];
        }
      }
      assert keychain[..|keychain|] == keychain;
      cards := Some(Cards);
    }

    /** `doAdd`: the form to open for a card name. */
    method DoAdd(form: string) returns (addComponent: Option<FormComponent>)
      ensures addComponent == AddComponentFor(form)
      ensures addComponent.Some? ==> exists i :: 0 <= i < |Cards| && Cards[i].name == form
    {
      addComponent := None;
      if form == "cloudCredentials" {
        addComponent := Some(CloudCredentialsForm);
        assert Cards[0].name == form;
      } else if form == "sshConnections" {
        addComponent := Some(SshConnectionsForm);
        assert Cards[1].name == form;
      } else if form == "sshKeypairs" {
        addComponent := Some(SshKeypairsForm);
        assert Cards[2].name == form;
      }
    }
  }
}
