/**
 * The actions of the session protocol. A client message starts with one of them and every
 * reply starts with one; on the wire an action is its Java constant name.
 */
module ServerActions {
  import opened Wrappers

  /**
   * The ten declared constants, then GameMsgDeny: the game logic replies with a
   * GAMEMSG_DENY constant that the enumeration does not declare, so it is kept apart.
   */
  datatype ServerAction =
    | Unknown | GameJoin | GameJoinAccept | GameJoinDeny | GameLeave
    | GameAction | GameActionAccept | GameActionDeny | GameEnd | GameMsg
    | GameMsgDeny
  {
    /** toString: the constant's name. */
    function Name(): string {
      match this
      case Unknown => "UNKNOWN"
      case GameJoin => "GAMEJOIN"
      case GameJoinAccept => "GAMEJOIN_ACCEPT"
      case GameJoinDeny => "GAMEJOIN_DENY"
      case GameLeave => "GAMELEAVE"
      case GameAction => "GAMEACTION"
      case GameActionAccept => "GAMEACTION_ACCEPT"
      case GameActionDeny => "GAMEACTION_DENY"
      case GameEnd => "GAMEEND"
      case GameMsg => "GAMEMSG"
      case GameMsgDeny => "GAMEMSG_DENY"
    }

    /** The constant is one the enumeration declares. */
    predicate Declared() {
      !GameMsgDeny?
    }
  }

  /** valueOf: the declared constant with exactly that name, if there is one. */
  function ValueOf(s: string): (r: Option<ServerAction>)
    ensures r.Some? ==> r.value.Declared() && r.value.Name() == s
    ensures r.None? ==> forall a: ServerAction :: a.Declared() ==> a.Name() != s
  {
    if s == "UNKNOWN" then Some(Unknown)
    else if s == "GAMEJOIN" then Some(GameJoin)
    else if s == "GAMEJOIN_ACCEPT" then Some(GameJoinAccept)
    else if s == "GAMEJOIN_DENY" then Some(GameJoinDeny)
    else if s == "GAMELEAVE" then Some(GameLeave)
    else if s == "GAMEACTION" then Some(GameAction)
    else if s == "GAMEACTION_ACCEPT" then Some(GameActionAccept)
    else if s == "GAMEACTION_DENY" then Some(GameActionDeny)
    else if s == "GAMEEND" then Some(GameEnd)
    else if s == "GAMEMSG" then Some(GameMsg)
    else None
  }

  /**
   * fromString: the declared constant named exactly s (the comparison is case-sensitive), and
   * UNKNOWN for any string that names none.
   */
  function FromString(s: string): (r: ServerAction)
    ensures r.Declared()
    ensures r != Unknown ==> r.Name() == s
    ensures r == Unknown <==> s == "UNKNOWN" || forall a: ServerAction :: a.Declared() ==> a.Name() != s
  {
    match ValueOf(s)
    case Some(a) => a
    case None => Unknown
  }

  /** Every declared constant reads back from its name. */
  lemma FromStringOfName(a: ServerAction)
    requires a.Declared()
    ensures FromString(a.Name()) == a
  {
    match a
    case Unknown =>
    case GameJoin =>
    case GameJoinAccept =>
    case GameJoinDeny =>
    case GameLeave =>
    case GameAction =>
    case GameActionAccept =>
    case GameActionDeny =>
    case GameEnd =>
    case GameMsg =>
  }

  /** Distinct constants have distinct names. */
  lemma NamesAreDistinct(a: ServerAction, b: ServerAction)
    requires a != b
    ensures a.Name() != b.Name()
  {
    if a.Declared() && b.Declared() {
      FromStringOfName(a);
      FromStringOfName(b);
    } else if a.Declared() {
      FromStringOfName(a);
      assert FromString("GAMEMSG_DENY") == Unknown;
    } else {
      FromStringOfName(b);
      assert FromString("GAMEMSG_DENY") == Unknown;
    }
  }

  /** The names are upper case: a lower-case spelling is not recognised. */
  lemma FromStringIsCaseSensitive()
    ensures FromString("gamejoin") == Unknown
    ensures FromString("GAMEJOIN") == GameJoin
  {
    FromStringOfName(GameJoin);
  }

  /** The one name of UNKNOWN reads back as an unrecognised string does: the two cannot be told apart. */
  lemma UnknownIsUnrecognised(s: string)
    requires forall a: ServerAction :: a.Declared() ==> a.Name() != s
    ensures FromString(s) == FromString("UNKNOWN") == Unknown
  {
    FromStringOfName(Unknown);
  }
}
