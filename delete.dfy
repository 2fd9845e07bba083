/** The delete commands: removing one character, and the officer-only, confirmed
    removal of every character of a server. */
module Delete {
  import opened Common
  import opened Text
  import opened Records

  // ---------------------------------------------------------------------------
  // Single delete

  /** The record `delete` aims at: with no family name, the author's primary character
      (in any server); with one, a primary character of this server whose family name
      contains it, letters compared without regard to case. */
  predicate DeleteCandidate(c: Character, ctx: Context, famName: string)
  {
    if famName == "" then PrimaryOf(c, ctx.author.id)
    else c.primary && c.server == ctx.server && IContains(c.famName, famName)
  }

  function DeleteMatcher(ctx: Context, famName: string): Character -> bool
  {
    (c: Character) => DeleteCandidate(c, ctx, famName)
  }

  /** The lookup and role check of `delete`. Naming a family needs the officer role,
      whether or not anything matches; deleting one's own record needs none. */
  function ResolveDeleteTarget(chars: seq<Character>, ctx: Context, famName: string): (r: Resolution)
    ensures r == Refused(OfficersOnly) <==> famName != "" && !IsOfficer(ctx)
    ensures r.Found? ==> IsFirst(chars, DeleteMatcher(ctx, famName), r.index)
    ensures r == Refused(CharacterNotFound) <==>
              (famName == "" || IsOfficer(ctx)) && NoneMatch(chars, DeleteMatcher(ctx, famName))
    ensures r.Found? || r.error == OfficersOnly || r.error == CharacterNotFound
  {
    var found := First(chars, DeleteMatcher(ctx, famName));
    if famName != "" && !IsOfficer(ctx) then Refused(OfficersOnly)
    else match found
      case None => Refused(CharacterNotFound)
      case Some(i) => Found(i)
  }

  /** `s` without its element at `i`. */
  function RemoveAt<T>(s: seq<T>, i: nat): seq<T>
    requires i < |s|
  {
    s[..i] + s[i + 1..]
  }

  /** Removing position `i` drops exactly that element: the others keep their values and
      their order, and the multiset loses one copy of `s[i]`. */
  lemma RemoveAtDropsOne<T>(s: seq<T>, i: nat)
    requires i < |s|
    ensures |RemoveAt(s, i)| == |s| - 1
    ensures forall j :: 0 <= j < i ==> RemoveAt(s, i)[j] == s[j]
    ensures forall j :: i <= j < |s| - 1 ==> RemoveAt(s, i)[j] == s[j + 1]
    ensures multiset(RemoveAt(s, i)) + multiset{s[i]} == multiset(s)
  {
    assert s == s[..i] + [s[i]] + s[i + 1..];
  }

  /** What `delete` does to the store: remove the one resolved record (its embedded
      history goes with it), or change nothing. */
  function DeleteSpec(chars: seq<Character>, ctx: Context, famName: string): (r: (Outcome, seq<Character>))
    ensures r.0.Failed? ==> r.1 == chars
    ensures famName != "" && !IsOfficer(ctx) ==> r.0 == Failed(OfficersOnly)
    ensures r.0 == Failed(CharacterNotFound) <==>
              (famName == "" || IsOfficer(ctx)) && NoneMatch(chars, DeleteMatcher(ctx, famName))
    ensures (famName == "" || IsOfficer(ctx)) && !NoneMatch(chars, DeleteMatcher(ctx, famName)) ==> r.0.Done?
    ensures r.0.Done? ==>
              && IsFirst(chars, DeleteMatcher(ctx, famName), r.0.index)
              && r.1 == RemoveAt(chars, r.0.index)
  {
    match ResolveDeleteTarget(chars, ctx, famName)
    case Refused(e) => (Failed(e), chars)
    case Found(i) => (Done(i), RemoveAt(chars, i))
  }

  /** `delete`: the record to remove is found, checked and then deleted in the store. */
  method Delete(store: Store, ctx: Context, famName: string) returns (outcome: Outcome)
    modifies store
    ensures (outcome, store.chars) == DeleteSpec(old(store.chars), ctx, famName)
  {
    var member := ResolveDeleteTarget(store.chars, ctx, famName);
    if member.Refused? {
      return Failed(member.error);
    }
    store.chars := store.chars[..member.index] + store.chars[member.index + 1..];
    outcome := Done(member.index);
  }

  /** Without a family name the target is searched in every server: a member who has a
      primary character only in another server deletes that one. */
  lemma OwnDeleteIgnoresServer(chars: seq<Character>, ctx: Context, i: nat)
    requires IsFirst(chars, DeleteMatcher(ctx, ""), i) && chars[i].server != ctx.server
    ensures DeleteSpec(chars, ctx, "") == (Done(i), RemoveAt(chars, i))
  {
  }

  // ---------------------------------------------------------------------------
  // Bulk delete

  /** A chat message received while the confirmation prompt is open. */
  datatype Message = Message(author: UserId, content: string)

  /** The one reply that confirms a bulk delete. */
  const ConfirmToken: string := "Yes"

  function MessageMatcher(author: UserId, content: string): Message -> bool
  {
    (m: Message) => m.author == author && m.content == content
  }

  /** Waiting for a message: `incoming` holds the messages that arrive before the timeout,
      in arrival order; the wait yields the first one by `author` whose content is exactly
      `content`, and `None` when the timeout passes without one. */
  function WaitForMessage(incoming: seq<Message>, author: UserId, content: string): (m: Option<Message>)
    ensures m.Some? ==> m.value in incoming && m.value.author == author && m.value.content == content
    ensures m.None? <==> forall k :: 0 <= k < |incoming| ==> !(incoming[k].author == author && incoming[k].content == content)
  {
    match First(incoming, MessageMatcher(author, content))
    case None => None
    case Some(k) => Some(incoming[k])
  }

  /** The author confirmed: some message of theirs within the window reads exactly "Yes". */
  predicate ConfirmedBy(incoming: seq<Message>, author: UserId)
  {
    exists k :: 0 <= k < |incoming| && incoming[k].author == author && incoming[k].content == ConfirmToken
  }

  /** Every character of `server` removed; the rest kept. */
  function WithoutServer(chars: seq<Character>, server: ServerId): (r: seq<Character>)
    ensures forall c :: c in r ==> c in chars && c.server != server
    ensures forall c :: c in chars && c.server != server ==> c in r
    ensures |r| <= |chars|
  {
    if chars == [] then []
    else if chars[0].server == server then WithoutServer(chars[1..], server)
    else [chars[0]] + WithoutServer(chars[1..], server)
  }

  /** Bulk removal is exact: a record of another server keeps every copy it had, a record
      of `server` keeps none. */
  lemma {:induction false} WithoutServerExact(chars: seq<Character>, server: ServerId, c: Character)
    ensures multiset(WithoutServer(chars, server))[c] == if c.server == server then 0 else multiset(chars)[c]
  {
    if chars != [] {
      WithoutServerExact(chars[1..], server, c);
      assert chars == [chars[0]] + chars[1..];
    }
  }

  datatype BulkOutcome = Cleared | NotCleared(error: Error)

  /** What `delete_all` does to the store. */
  function DeleteAllSpec(chars: seq<Character>, ctx: Context, incoming: seq<Message>): (r: (BulkOutcome, seq<Character>))
    ensures !IsOfficer(ctx) ==> r == (NotCleared(OfficersOnly), chars)
    ensures IsOfficer(ctx) && !ConfirmedBy(incoming, ctx.author.id) ==> r == (NotCleared(Cancelled), chars)
    ensures IsOfficer(ctx) && ConfirmedBy(incoming, ctx.author.id) ==> r == (Cleared, WithoutServer(chars, ctx.server))
  {
    if !IsOfficer(ctx) then (NotCleared(OfficersOnly), chars)
    else
      var msg := WaitForMessage(incoming, ctx.author.id, ConfirmToken);
      if msg.Some? && msg.value.content == ConfirmToken then (Cleared, WithoutServer(chars, ctx.server))
      else (NotCleared(Cancelled), chars)
  }

  /** `delete_all`: the role check, then the prompt, then removal only on confirmation. */
  method DeleteAll(store: Store, ctx: Context, incoming: seq<Message>) returns (outcome: BulkOutcome)
    modifies store
    ensures (outcome, store.chars) == DeleteAllSpec(old(store.chars), ctx, incoming)
  {
    if !IsOfficer(ctx) {
      return NotCleared(OfficersOnly);
    }
    var msg := WaitForMessage(incoming, ctx.author.id, ConfirmToken);
    if msg.Some? && msg.value.content == ConfirmToken {
      store.chars := WithoutServer(store.chars, ctx.server);
      return Cleared;
    }
    outcome := NotCleared(Cancelled);
  }

  /** A confirmed bulk delete in a server with three characters and a character of another
      server leaves only the latter; a reply of "yes", or a "Yes" from someone else,
      removes nothing. */
  lemma DeleteAllScenario(a: Character, b: Character, c: Character, other: Character, ctx: Context)
    requires IsOfficer(ctx)
    requires a.server == b.server == c.server == ctx.server != other.server
    ensures DeleteAllSpec([a, b, other, c], ctx, [Message(ctx.author.id, "Yes")]) == (Cleared, [other])
    ensures DeleteAllSpec([a, b, other, c], ctx, [Message(ctx.author.id, "yes")]).1 == [a, b, other, c]
    ensures DeleteAllSpec([a, b, other, c], ctx, [Message(ctx.author.id + 1, "Yes")]).1 == [a, b, other, c]
  {
    var yes := [Message(ctx.author.id, "Yes")];
    assert yes[0].author == ctx.author.id && yes[0].content == ConfirmToken;
    assert ConfirmedBy(yes, ctx.author.id);
    assert WithoutServer([a, b, other, c], ctx.server) == [other] by {
      var s := ctx.server;
      assert WithoutServer([c], s) == WithoutServer([], s) == [] by { assert [c][1..] == []; }
      assert WithoutServer([other, c], s) == [other] by { assert [other, c][1..] == [c]; }
      assert WithoutServer([b, other, c], s) == [other] by { assert [b, other, c][1..] == [other, c]; }
      assert [a, b, other, c][1..] == [b, other, c];
    }
    assert "yes" != ConfirmToken by { assert "yes"[0] != ConfirmToken[0]; }
  }
}
