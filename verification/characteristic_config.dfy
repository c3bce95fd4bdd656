/**
 `CharactaristicConfig`: the declarative description of one characteristic, and the
 mapping from its raw string tokens to the property and permission flag sets that
 CoreBluetooth's `CBCharacteristicProperties` and `CBAttributePermissions` hold.
 Recognised tokens are matched exactly (case-sensitively); every other token is skipped.
 */
module CharacteristicConfig {
  import opened Wrappers
  import opened Uuid
  import opened Utf8

  /** The property flags the app can set */
  datatype Property = Notify | Write | Read

  /** The permission flags the app can set */
  datatype Permission = Readable | Writeable

  datatype Config = Config(
    rawUuid: string,
    rawProperties: seq<string>,
    rawInitialValue: Option<Bytes>,
    rawPermissions: seq<string>)

  /** The flag a property token stands for, if it is one of the three recognised tokens */
  function PropertyOf(token: string): Option<Property> {
    match token
    case "NOTIFY" => Some(Notify)
    case "WRITE" => Some(Write)
    case "READ" => Some(Read)
    case _ => None
  }

  /** The flag a permission token stands for, if it is one of the two recognised tokens */
  function PermissionOf(token: string): Option<Permission> {
    match token
    case "READABLE" => Some(Readable)
    case "WRITABLE" => Some(Writeable)
    case _ => None
  }

  /**
   The loop of `properties` and `permissions`: walk the tokens in order, inserting the
   flag of each recognised token into an initially empty option set.
   */
  function Collect<F(==,!new)>(tokens: seq<string>, flagOf: string -> Option<F>): (flags: set<F>)
    ensures forall f :: f in flags <==> exists i :: 0 <= i < |tokens| && flagOf(tokens[i]) == Some(f)
    decreases |tokens|
  {
    if tokens == [] then {}
    else
      var earlier := Collect(tokens[..|tokens| - 1], flagOf);
      match flagOf(tokens[|tokens| - 1])
      case Some(f) => earlier + {f}
      case None => earlier
  }

  /** The property flags of a token list (`CharactaristicConfig.properties`) */
  function PropertyFlags(tokens: seq<string>): (flags: set<Property>)
    ensures Notify in flags <==> "NOTIFY" in tokens
    ensures Write in flags <==> "WRITE" in tokens
    ensures Read in flags <==> "READ" in tokens
  {
    Collect(tokens, PropertyOf)
  }

  /** The permission flags of a token list (`CharactaristicConfig.permissions`) */
  function PermissionFlags(tokens: seq<string>): (flags: set<Permission>)
    ensures Readable in flags <==> "READABLE" in tokens
    ensures Writeable in flags <==> "WRITABLE" in tokens
  {
    Collect(tokens, PermissionOf)
  }

  function Properties(config: Config): set<Property> {
    PropertyFlags(config.rawProperties)
  }

  function Permissions(config: Config): set<Permission> {
    PermissionFlags(config.rawPermissions)
  }

  /** `CharactaristicConfig.uuid`: defined only for well-formed UUID text (the source force-unwraps) */
  function ConfigUuid(config: Config): (u: string)
    requires WellFormed(config.rawUuid)
    ensures IsCanonical(u)
    ensures IsCanonical(config.rawUuid) ==> u == config.rawUuid
  {
    CanonicalFixedPoint(config.rawUuid);
    Canonical(config.rawUuid)
  }

  /** The flags of a concatenated token list are the union of the flags of the parts */
  lemma {:induction false} CollectAppend<F(!new)>(a: seq<string>, b: seq<string>, flagOf: string -> Option<F>)
    ensures Collect(a + b, flagOf) == Collect(a, flagOf) + Collect(b, flagOf)
  {
    if b != [] {
      var ab := a + b;
      assert ab[..|ab| - 1] == a + b[..|b| - 1];
      CollectAppend(a, b[..|b| - 1], flagOf);
    } else {
      assert a + b == a;
    }
  }

  /** Order and repetition of tokens do not matter: only which tokens occur */
  lemma CollectDependsOnlyOnTokenSet<F(!new)>(a: seq<string>, b: seq<string>, flagOf: string -> Option<F>)
    requires forall t :: t in a <==> t in b
    ensures Collect(a, flagOf) == Collect(b, flagOf)
  {
    forall f | f in Collect(a, flagOf)
      ensures f in Collect(b, flagOf)
    {
      var i :| 0 <= i < |a| && flagOf(a[i]) == Some(f);
      assert a[i] in b;
      var j :| 0 <= j < |b| && b[j] == a[i];
    }
    forall f | f in Collect(b, flagOf)
      ensures f in Collect(a, flagOf)
    {
      var j :| 0 <= j < |b| && flagOf(b[j]) == Some(f);
      assert b[j] in a;
      var i :| 0 <= i < |a| && a[i] == b[j];
    }
  }

  /** A token without a flag contributes nothing, wherever it stands */
  lemma CollectSkipsUnknown<F(!new)>(a: seq<string>, t: string, b: seq<string>, flagOf: string -> Option<F>)
    requires flagOf(t) == None
    ensures Collect(a + [t] + b, flagOf) == Collect(a + b, flagOf)
  {
    CollectAppend(a + [t], b, flagOf);
    CollectAppend(a, [t], flagOf);
    CollectAppend(a, b, flagOf);
  }

  lemma PropertyFlagsAppend(a: seq<string>, b: seq<string>)
    ensures PropertyFlags(a + b) == PropertyFlags(a) + PropertyFlags(b)
  {
    CollectAppend(a, b, PropertyOf);
  }

  lemma PermissionFlagsAppend(a: seq<string>, b: seq<string>)
    ensures PermissionFlags(a + b) == PermissionFlags(a) + PermissionFlags(b)
  {
    CollectAppend(a, b, PermissionOf);
  }

  lemma PropertyFlagsIgnoreOrderAndRepetition(a: seq<string>, b: seq<string>)
    requires forall t :: t in a <==> t in b
    ensures PropertyFlags(a) == PropertyFlags(b)
  {
    CollectDependsOnlyOnTokenSet(a, b, PropertyOf);
  }

  lemma PermissionFlagsIgnoreOrderAndRepetition(a: seq<string>, b: seq<string>)
    requires forall t :: t in a <==> t in b
    ensures PermissionFlags(a) == PermissionFlags(b)
  {
    CollectDependsOnlyOnTokenSet(a, b, PermissionOf);
  }

  lemma PropertyFlagsSkipUnknown(a: seq<string>, t: string, b: seq<string>)
    requires t != "NOTIFY" && t != "WRITE" && t != "READ"
    ensures PropertyFlags(a + [t] + b) == PropertyFlags(a + b)
  {
    CollectSkipsUnknown(a, t, b, PropertyOf);
  }

  lemma PermissionFlagsSkipUnknown(a: seq<string>, t: string, b: seq<string>)
    requires t != "READABLE" && t != "WRITABLE"
    ensures PermissionFlags(a + [t] + b) == PermissionFlags(a + b)
  {
    CollectSkipsUnknown(a, t, b, PermissionOf);
  }

  /** Matching is case-sensitive: lower-case spellings are unknown tokens */
  lemma TokensAreCaseSensitive()
    ensures PropertyFlags(["notify", "write", "read", "Notify"]) == {}
    ensures PermissionFlags(["readable", "writable", "WRITEABLE"]) == {}
  {
  }

  lemma EmptyTokensGiveNoFlags()
    ensures PropertyFlags([]) == {}
    ensures PermissionFlags([]) == {}
  {
  }
}
