/** The record store the two command groups act on: `Character` documents with their
    embedded `Historical` snapshots, kept in the store's own order. */
module Records {
  import opened Common

  type UserId = int
  type ServerId = int
  type Timestamp = int

  /** A snapshot of a character's combat stats. The level and the rounded progress are
      kept as two numbers rather than one combined decimal (see `Numeric.LevelDecimal`). */
  datatype Historical = Historical(
    kind: string,
    charClass: string,
    timestamp: Timestamp,
    level: int,
    progress: int,
    ap: int,
    aap: int,
    dp: int,
    gearScore: int)

  /** One character profile. `member` is the owner's user id, `server` the guild it
      belongs to, `primary` marks the owner's main character. */
  datatype Character = Character(
    member: UserId,
    server: ServerId,
    famName: string,
    charName: string,
    charClass: string,
    primary: bool,
    level: int,
    progress: real,
    ap: int,
    aap: int,
    dp: int,
    gearScore: int,
    gearPic: Option<string>,
    updated: Timestamp,
    histData: seq<Historical>)

  /** The derived-field rule: gear score is accessory attack power plus defense power. */
  predicate GearScoreHolds(c: Character)
  {
    c.gearScore == c.aap + c.dp
  }

  predicate AllGearScoresHold(chars: seq<Character>)
  {
    forall k :: 0 <= k < |chars| ==> GearScoreHolds(chars[k])
  }

  /** The fields an update may write. */
  datatype Field = ApField | AapField | DpField | LevelField | ProgressField
                 | GearScoreField | GearPicField | UpdatedField | HistField

  /** `a` and `b` agree on every field outside `touched`; owner, server, names, class and
      the primary flag are never written by an update. */
  predicate AgreeExcept(a: Character, b: Character, touched: set<Field>)
  {
    && a.member == b.member && a.server == b.server && a.famName == b.famName
    && a.charName == b.charName && a.charClass == b.charClass && a.primary == b.primary
    && (ApField !in touched ==> a.ap == b.ap)
    && (AapField !in touched ==> a.aap == b.aap)
    && (DpField !in touched ==> a.dp == b.dp)
    && (LevelField !in touched ==> a.level == b.level)
    && (ProgressField !in touched ==> a.progress == b.progress)
    && (GearScoreField !in touched ==> a.gearScore == b.gearScore)
    && (GearPicField !in touched ==> a.gearPic == b.gearPic)
    && (UpdatedField !in touched ==> a.updated == b.updated)
    && (HistField !in touched ==> a.histData == b.histData)
  }

  /** The author of a command, with the names of the roles they hold. */
  datatype Author = Author(id: UserId, roles: seq<string>)

  /** What a command knows about its invocation: who sent it, in which server, and the
      configured name of the officer role. */
  datatype Context = Context(author: Author, server: ServerId, adminRole: string)

  predicate IsOfficer(ctx: Context)
  {
    ctx.adminRole in ctx.author.roles
  }

  /** `c` is the primary character of user `member`. */
  predicate PrimaryOf(c: Character, member: UserId)
  {
    c.primary && c.member == member
  }

  datatype Error = OfficersOnly | CharacterNotFound | SnapshotFailed | NoPicture | UploadFailed | Cancelled

  /** A target lookup either finds the position of a record or is refused. */
  datatype Resolution = Found(index: nat) | Refused(error: Error)

  /** The result of a command on one record: the position it acted on, or the error. */
  datatype Outcome = Done(index: nat) | Failed(error: Error)

  /** The shared collection of character documents, in store order. */
  class Store {
    var chars: seq<Character>

    constructor (initial: seq<Character>)
      ensures chars == initial
    {
      chars := initial;
    }
  }
}
