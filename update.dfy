/** The update commands: target resolution with its officer gate, the single-field
    updates dispatched by `ap`, `aap`, `dp`, `lvl`, `progress` and `pic`, and `all`,
    which snapshots the old stats before overwriting them. */
module Update {
  import opened Common
  import opened Text
  import opened Numeric
  import opened Records

  // ---------------------------------------------------------------------------
  // Target resolution

  /** The record an update aims at: with no tagged user, the author's primary character
      (in any server); with a tagged user, that user's primary character in this server. */
  predicate UpdateCandidate(c: Character, ctx: Context, user: Option<UserId>)
  {
    match user
    case None => PrimaryOf(c, ctx.author.id)
    case Some(u) => PrimaryOf(c, u) && c.server == ctx.server
  }

  function UpdateMatcher(ctx: Context, user: Option<UserId>): Character -> bool
  {
    (c: Character) => UpdateCandidate(c, ctx, user)
  }

  /** The lookup and role check of `__get_member`. Tagging a user needs the officer role,
      whether or not that user has a character; acting on one's own record needs none. */
  function ResolveMember(chars: seq<Character>, ctx: Context, user: Option<UserId>): (r: Resolution)
    ensures r == Refused(OfficersOnly) <==> user.Some? && !IsOfficer(ctx)
    ensures r.Found? ==> IsFirst(chars, UpdateMatcher(ctx, user), r.index)
    ensures r == Refused(CharacterNotFound) <==>
              (user.None? || IsOfficer(ctx)) && NoneMatch(chars, UpdateMatcher(ctx, user))
    ensures r.Found? || r.error == OfficersOnly || r.error == CharacterNotFound
  {
    var found := First(chars, UpdateMatcher(ctx, user));
    if user.Some? && !IsOfficer(ctx) then Refused(OfficersOnly)
    else match found
      case None => Refused(CharacterNotFound)
      case Some(i) => Found(i)
  }

  // ---------------------------------------------------------------------------
  // Single-field updates

  /** One attribute write, as the commands `ap`, `aap`, `dp`, `lvl`, `progress` and `pic`
      hand it to `update_attribute`. */
  datatype Change =
    | SetAp(ap: int)
    | SetAap(aap: int)
    | SetDp(dp: int)
    | SetLevel(level: int)
    | SetProgress(percent: real)
    | SetGearPic(url: string)

  /** The fields each change is allowed to write. */
  function Touched(change: Change): set<Field>
  {
    match change
    case SetAp(_) => {ApField, UpdatedField}
    case SetAap(_) => {AapField, GearScoreField, UpdatedField}
    case SetDp(_) => {DpField, GearScoreField, UpdatedField}
    case SetLevel(_) => {LevelField, UpdatedField}
    case SetProgress(_) => {ProgressField, UpdatedField}
    case SetGearPic(_) => {GearPicField, UpdatedField}
  }

  /** The record `update_attributes` leaves behind for one change stamped `date`. */
  function ApplyChange(c: Character, change: Change, date: Timestamp): Character
  {
    match change
    case SetAap(v) => c.(aap := v, gearScore := v + c.dp, updated := date)
    case SetDp(v) => c.(dp := v, gearScore := v + c.aap, updated := date)
    case SetAp(v) => c.(ap := v, updated := date)
    case SetLevel(v) => c.(level := v, updated := date)
    case SetProgress(v) => c.(progress := v, updated := date)
    case SetGearPic(url) => c.(gearPic := Some(url), updated := date)
  }

  /** A change writes only its own fields and the timestamp; in particular it never
      touches the history. */
  lemma ChangeTouchesOnlyItsFields(c: Character, change: Change, date: Timestamp)
    ensures AgreeExcept(ApplyChange(c, change, date), c, Touched(change))
    ensures ApplyChange(c, change, date).updated == date
    ensures HistField !in Touched(change)
  {
  }

  /** The value each change stores. Setting `aap` or `dp` recomputes the gear score from
      the new value and the other stored field, which itself stays as it was. */
  lemma ChangeWritesItsValue(c: Character, change: Change, date: Timestamp)
    ensures var r := ApplyChange(c, change, date);
      match change
      case SetAp(v) => r.ap == v && r.gearScore == c.gearScore
      case SetAap(v) => r.aap == v && r.dp == c.dp && r.gearScore == v + c.dp
      case SetDp(v) => r.dp == v && r.aap == c.aap && r.gearScore == c.aap + v
      case SetLevel(v) => r.level == v && r.gearScore == c.gearScore
      case SetProgress(v) => r.progress == v && r.gearScore == c.gearScore
      case SetGearPic(url) => r.gearPic == Some(url) && r.gearScore == c.gearScore
  {
  }

  /** After a change the gear-score rule holds exactly when the change re-derived the
      score, or the rule held already. */
  lemma GearScoreAfterChange(c: Character, change: Change, date: Timestamp)
    ensures GearScoreHolds(ApplyChange(c, change, date)) <==>
              change.SetAap? || change.SetDp? || GearScoreHolds(c)
  {
  }

  /** What `update_attribute` does to the store: resolve, then either leave everything as
      it was or rewrite the one resolved record. */
  function UpdateAttributeSpec(chars: seq<Character>, ctx: Context, user: Option<UserId>,
                               change: Change, date: Timestamp): (r: (Outcome, seq<Character>))
    ensures r.0.Failed? ==> r.1 == chars
    ensures user.Some? && !IsOfficer(ctx) ==> r.0 == Failed(OfficersOnly)
    ensures r.0.Done? ==> IsFirst(chars, UpdateMatcher(ctx, user), r.0.index)
    ensures r.0.Done? ==>
              && |r.1| == |chars|
              && r.1[r.0.index] == ApplyChange(chars[r.0.index], change, date)
              && forall j :: 0 <= j < |chars| && j != r.0.index ==> r.1[j] == chars[j]
    ensures r.0 == Failed(CharacterNotFound) <==>
              (user.None? || IsOfficer(ctx)) && NoneMatch(chars, UpdateMatcher(ctx, user))
    ensures (user.None? || IsOfficer(ctx)) && !NoneMatch(chars, UpdateMatcher(ctx, user)) ==> r.0.Done?
    ensures r.0.Failed? ==> r.0.error in {OfficersOnly, CharacterNotFound}
  {
    match ResolveMember(chars, ctx, user)
    case Refused(e) => (Failed(e), chars)
    case Found(i) => (Done(i), chars[i := ApplyChange(chars[i], change, date)])
  }

  /** Without a tagged user the target is searched in every server: the author's first
      primary character is updated even when it belongs to another server. */
  lemma OwnUpdateIgnoresServer(chars: seq<Character>, ctx: Context, i: nat, change: Change, date: Timestamp)
    requires IsFirst(chars, UpdateMatcher(ctx, None), i) && chars[i].server != ctx.server
    ensures UpdateAttributeSpec(chars, ctx, None, change, date) == (Done(i), chars[i := ApplyChange(chars[i], change, date)])
  {
    FirstIsUnique(chars, UpdateMatcher(ctx, None));
  }

  /** `update_attribute`: `date` is the one time taken when the command starts. */
  method UpdateAttribute(store: Store, ctx: Context, user: Option<UserId>, change: Change, date: Timestamp)
    returns (outcome: Outcome)
    modifies store
    ensures (outcome, store.chars) == UpdateAttributeSpec(old(store.chars), ctx, user, change, date)
  {
    var target := ResolveMember(store.chars, ctx, user);
    if target.Refused? {
      return Failed(target.error);
    }
    var i := target.index;
    store.chars := store.chars[i := ApplyChange(store.chars[i], change, date)];
    outcome := Done(i);
  }

  /** A single-field update keeps the gear-score rule of every record that had it. */
  lemma UpdateAttributeKeepsGearScores(chars: seq<Character>, ctx: Context, user: Option<UserId>,
                                       change: Change, date: Timestamp)
    requires AllGearScoresHold(chars)
    ensures AllGearScoresHold(UpdateAttributeSpec(chars, ctx, user, change, date).1)
  {
  }

  /** `pic`: the picture to upload is the given URL, or else the first attachment. */
  function PicSource(url: string, attachments: seq<string>): Option<string>
  {
    if url != "" then Some(url)
    else if attachments == [] then None
    else Some(attachments[0])
  }

  /** What `pic` does to the store. `upload` stands for the image host: it returns the
      public URL of the stored picture, or `None` when the upload fails. The update itself
      always targets the author's own character. */
  function PicSpec(chars: seq<Character>, ctx: Context, url: string, attachments: seq<string>,
                   upload: string -> Option<string>, date: Timestamp): (r: (Outcome, seq<Character>))
    ensures r.0 == Failed(NoPicture) <==> url == "" && attachments == []
    ensures r.0 == Failed(UploadFailed) <==>
              (url != "" && upload(url).None?) || (url == "" && attachments != [] && upload(attachments[0]).None?)
    ensures r.0.Failed? ==> r.1 == chars
    ensures url != "" && upload(url).Some? ==>
              r == UpdateAttributeSpec(chars, ctx, None, SetGearPic(upload(url).value), date)
    ensures url == "" && attachments != [] && upload(attachments[0]).Some? ==>
              r == UpdateAttributeSpec(chars, ctx, None, SetGearPic(upload(attachments[0]).value), date)
    ensures r.0.Done? ==>
              && IsFirst(chars, UpdateMatcher(ctx, None), r.0.index)
              && |r.1| == |chars|
              && r.1[r.0.index].gearPic.Some?
  {
    match PicSource(url, attachments)
    case None => (Failed(NoPicture), chars)
    case Some(source) =>
      match upload(source)
      case None => (Failed(UploadFailed), chars)
      case Some(link) => UpdateAttributeSpec(chars, ctx, None, SetGearPic(link), date)
  }

  method Pic(store: Store, ctx: Context, url: string, attachments: seq<string>,
             upload: string -> Option<string>, date: Timestamp)
    returns (outcome: Outcome)
    modifies store
    ensures (outcome, store.chars) == PicSpec(old(store.chars), ctx, url, attachments, upload, date)
  {
    var source := PicSource(url, attachments);
    if source.None? {
      return Failed(NoPicture);
    }
    var response := upload(source.value);
    if response.None? {
      return Failed(UploadFailed);
    }
    outcome := UpdateAttribute(store, ctx, None, SetGearPic(response.value), date);
  }

  // ---------------------------------------------------------------------------
  // The `all` command

  /** A snapshot keeps the level and the rounded progress as two numbers, so two snapshots
      agree on them exactly when the characters agree on level and rounded progress. */
  lemma SnapshotKeepsLevelAndProgressApart(a: Character, b: Character, date: Timestamp)
    ensures var ha, hb := CreateHistorical(a, date), CreateHistorical(b, date);
      (ha.level == hb.level && ha.progress == hb.progress) <==>
      (a.level == b.level && Round(a.progress) == Round(b.progress))
  {
  }

  /** The arguments of `all`, in the order the command takes them. */
  datatype FullUpdate = FullUpdate(level: int, ap: int, aap: int, dp: int, percent: real)

  /** `__create_historical`: a snapshot of `c` as it is now, stamped `date`. */
  function CreateHistorical(c: Character, date: Timestamp): Historical
  {
    Historical("update", Upper(c.charClass), date, c.level, Round(c.progress), c.ap, c.aap, c.dp, c.gearScore)
  }

  /** gsbot builds the snapshot's level from the text str(level) + '.' + str(round(progress));
      that fails when the rounded progress is negative, and the command then writes nothing. */
  predicate SnapshotFails(c: Character)
  {
    LevelDecimal(c.level, Round(c.progress)).None?
  }

  /** The record `all` leaves behind: the snapshot of the old state appended to the history,
      then the five stats overwritten and the gear score re-derived. */
  function Overwrite(c: Character, args: FullUpdate, date: Timestamp): Character
  {
    var snapshot := CreateHistorical(c, date);
    c.(ap := args.ap, aap := args.aap, dp := args.dp, level := args.level,
       gearScore := args.aap + args.dp, progress := args.percent, updated := date,
       histData := c.histData + [snapshot])
  }

  /** The fields `all` writes. */
  const AllFields: set<Field> :=
    {ApField, AapField, DpField, LevelField, ProgressField, GearScoreField, UpdatedField, HistField}

  /** `all` appends exactly one entry to the history and keeps every earlier entry in place. */
  lemma OverwriteAppendsOneSnapshot(c: Character, args: FullUpdate, date: Timestamp)
    ensures var r := Overwrite(c, args, date);
      && |r.histData| == |c.histData| + 1
      && r.histData[..|c.histData|] == c.histData
      && r.histData[|c.histData|] == CreateHistorical(c, date)
  {
  }

  /** The appended entry records the state before the overwrite, and the new record holds
      the arguments: the old stats go into history, the new ones into the record. */
  lemma OverwriteSnapshotsThePriorState(c: Character, args: FullUpdate, date: Timestamp)
    ensures var r := Overwrite(c, args, date);
      var h := r.histData[|r.histData| - 1];
      && h.kind == "update" && h.timestamp == date && h.charClass == Upper(c.charClass)
      && h.level == c.level && h.progress == Round(c.progress)
      && h.ap == c.ap && h.aap == c.aap && h.dp == c.dp && h.gearScore == c.gearScore
  {
  }

  /** After `all`, the five stats equal the arguments, the gear-score rule holds, the
      timestamp is `date`, and nothing outside the written fields has changed. */
  lemma OverwriteSetsTheArguments(c: Character, args: FullUpdate, date: Timestamp)
    ensures var r := Overwrite(c, args, date);
      && r.level == args.level && r.ap == args.ap && r.aap == args.aap && r.dp == args.dp
      && r.progress == args.percent && r.updated == date
      && GearScoreHolds(r)
      && AgreeExcept(r, c, AllFields)
  {
  }

  /** What `all` does to the store. */
  function AllSpec(chars: seq<Character>, ctx: Context, user: Option<UserId>,
                   args: FullUpdate, date: Timestamp): (r: (Outcome, seq<Character>))
    ensures r.0.Failed? ==> r.1 == chars
    ensures user.Some? && !IsOfficer(ctx) ==> r.0 == Failed(OfficersOnly)
    ensures r.0 == Failed(CharacterNotFound) <==>
              (user.None? || IsOfficer(ctx)) && NoneMatch(chars, UpdateMatcher(ctx, user))
    ensures r.0 == Failed(SnapshotFailed) <==>
              (user.None? || IsOfficer(ctx)) &&
              exists i: nat :: IsFirst(chars, UpdateMatcher(ctx, user), i) && SnapshotFails(chars[i])
    ensures ((user.None? || IsOfficer(ctx)) &&
             exists i: nat :: IsFirst(chars, UpdateMatcher(ctx, user), i) && !SnapshotFails(chars[i]))
            ==> r.0.Done?
    ensures r.0.Done? ==>
              && IsFirst(chars, UpdateMatcher(ctx, user), r.0.index)
              && !SnapshotFails(chars[r.0.index])
              && |r.1| == |chars|
              && r.1[r.0.index] == Overwrite(chars[r.0.index], args, date)
              && forall j :: 0 <= j < |chars| && j != r.0.index ==> r.1[j] == chars[j]
  {
    match ResolveMember(chars, ctx, user)
    case Refused(e) => (Failed(e), chars)
    case Found(i) =>
      FirstIsUnique(chars, UpdateMatcher(ctx, user));
      if SnapshotFails(chars[i]) then (Failed(SnapshotFailed), chars)
      else (Done(i), chars[i := Overwrite(chars[i], args, date)])
  }

  /** `all`: resolve, snapshot the old stats, append, overwrite, all stamped with one `date`. */
  method All(store: Store, ctx: Context, user: Option<UserId>, args: FullUpdate, date: Timestamp)
    returns (outcome: Outcome)
    modifies store
    ensures (outcome, store.chars) == AllSpec(old(store.chars), ctx, user, args, date)
  {
    var target := ResolveMember(store.chars, ctx, user);
    if target.Refused? {
      return Failed(target.error);
    }
    var i := target.index;
    var character := store.chars[i];
    if SnapshotFails(character) {
      return Failed(SnapshotFailed);
    }
    var update := CreateHistorical(character, date);
    var historicalData := character.histData + [update];
    store.chars := store.chars[i := character.(
      ap := args.ap, aap := args.aap, dp := args.dp, level := args.level,
      gearScore := args.aap + args.dp, progress := args.percent, updated := date,
      histData := historicalData)];
    outcome := Done(i);
  }

  /** `all` keeps the gear-score rule of every record that had it, and establishes it on
      the record it rewrites. */
  lemma AllKeepsGearScores(chars: seq<Character>, ctx: Context, user: Option<UserId>,
                           args: FullUpdate, date: Timestamp)
    requires AllGearScoresHold(chars)
    ensures AllGearScoresHold(AllSpec(chars, ctx, user, args, date).1)
  {
  }

  /** The history of no record ever loses or reorders an entry: under either kind of
      update, each record's old history is a prefix of its new one. */
  lemma HistoryOnlyGrows(chars: seq<Character>, ctx: Context, user: Option<UserId>,
                         change: Change, args: FullUpdate, date: Timestamp)
    ensures var after := UpdateAttributeSpec(chars, ctx, user, change, date).1;
      |after| == |chars| && forall j :: 0 <= j < |chars| ==> after[j].histData == chars[j].histData
    ensures var after := AllSpec(chars, ctx, user, args, date).1;
      |after| == |chars| && forall j :: 0 <= j < |chars| ==> chars[j].histData <= after[j].histData
  {
    var r := UpdateAttributeSpec(chars, ctx, user, change, date);
    if r.0.Done? {
      ChangeTouchesOnlyItsFields(chars[r.0.index], change, date);
    }
    var s := AllSpec(chars, ctx, user, args, date);
    if s.0.Done? {
      OverwriteAppendsOneSnapshot(chars[s.0.index], args, date);
    }
  }

  /** Character A with aap 200 and dp 50 updated to dp 70 has gear score 270 and aap 200. */
  lemma SetDpScenario(c: Character, date: Timestamp)
    requires c.aap == 200 && c.dp == 50 && c.gearScore == 250
    ensures var r := ApplyChange(c, SetDp(70), date);
      r.dp == 70 && r.gearScore == 270 && r.aap == 200
  {
  }
}
