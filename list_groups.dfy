/**
 The projection inside `listGroups` (index.js): the value returned by the
 library's `getChats()` is checked to be an array, the group chats are kept
 in order, and each is summarised with fallbacks for a missing id, name and
 participant list.
 */
module GroupListing {
  import opened Chats

  /** What one `getChats()` call produced: a rejection, a value that is not an
      array (with its `typeof`), or an array of chats. */
  datatype Fetched = Threw(message: string) | NotArray(typeName: string) | Returned(chats: seq<Chat>)

  datatype GroupSummary = GroupSummary(id: string, name: string, participantsCount: Option<nat>)

  datatype ListError = GetChatsFailed(message: string) | NotAnArrayError(typeName: string)

  datatype Result = Ok(groups: seq<GroupSummary>) | Err(error: ListError)

  const NoId := "sin-id"
  const NoName := "Sin nombre"

  /** The group chats of `chats`, in their original order (`c.isGroup === true`). */
  function Groups(chats: seq<Chat>): (gs: seq<Chat>)
    ensures |gs| <= |chats|
  {
    if chats == [] then []
    else (if chats[0].isGroup then [chats[0]] else []) + Groups(chats[1..])
  }

  /** The summary id: `_serialized` when truthy, else `String(id)` when there is
      an id, else "sin-id". */
  function SummaryId(id: Option<ChatId>): (s: string)
    ensures id.Some? && Truthy(id.value.serialized) ==> s == id.value.serialized.value && s != ""
    ensures id.Some? && !Truthy(id.value.serialized) ==> s == id.value.rendered
    ensures id.None? ==> s == NoId
  {
    match id
    case None => NoId
    case Some(cid) => if Truthy(cid.serialized) then cid.serialized.value else cid.rendered
  }

  /** `name || formattedTitle || 'Sin nombre'`: the first truthy one. */
  function SummaryName(c: Chat): (s: string)
    ensures s != ""
    ensures Truthy(c.name) ==> s == c.name.value
    ensures !Truthy(c.name) && Truthy(c.formattedTitle) ==> s == c.formattedTitle.value
    ensures s != NoName ==> Truthy(c.name) || Truthy(c.formattedTitle)
  {
    if Truthy(c.name) then c.name.value
    else if Truthy(c.formattedTitle) then c.formattedTitle.value
    else NoName
  }

  /** The participant count is defined exactly when `participants` is an array. */
  function ParticipantsCount(p: Participants): (n: Option<nat>)
    ensures n.Some? <==> p.Members?
    ensures n.Some? ==> n.value == |p.members|
  {
    match p
    case Members(ms) => Some(|ms|)
    case _ => None
  }

  function Summarize(c: Chat): (s: GroupSummary)
    ensures s.name != ""
    ensures s.participantsCount.Some? <==> c.participants.Members?
  {
    GroupSummary(SummaryId(c.id), SummaryName(c), ParticipantsCount(c.participants))
  }

  /** The whole projection: an error for a rejected or non-array fetch,
      otherwise one summary per group chat, in input order. */
  function ListGroups(f: Fetched): (r: Result)
    ensures r.Err? <==> !f.Returned?
    ensures f.Threw? ==> r == Err(GetChatsFailed(f.message))
    ensures f.NotArray? ==> r == Err(NotAnArrayError(f.typeName))
    ensures r.Ok? ==> |r.groups| == |Groups(f.chats)|
    ensures r.Ok? ==> forall i :: 0 <= i < |r.groups| ==>
              r.groups[i] == Summarize(Groups(f.chats)[i]) && r.groups[i].name != ""
  {
    match f
    case Threw(m) => Err(GetChatsFailed(m))
    case NotArray(t) => Err(NotAnArrayError(t))
    case Returned(chats) =>
      var gs := Groups(chats);
      Ok(seq(|gs|, i requires 0 <= i < |gs| => Summarize(gs[i])))
  }

  /** Exactly the group chats survive the filter. */
  lemma {:induction false} GroupsMembers(chats: seq<Chat>)
    ensures forall c :: c in Groups(chats) <==> c in chats && c.isGroup
  {
    if chats != [] {
      GroupsMembers(chats[1..]);
      assert chats == [chats[0]] + chats[1..];
    }
  }

  /** The filter distributes over concatenation, so input order is kept. */
  lemma {:induction false} GroupsAppend(a: seq<Chat>, b: seq<Chat>)
    ensures Groups(a + b) == Groups(a) + Groups(b)
  {
    if a == [] {
      assert a + b == b;
    } else {
      assert (a + b)[0] == a[0];
      assert (a + b)[1..] == a[1..] + b;
      GroupsAppend(a[1..], b);
    }
  }

  /** One entry per group chat: a chat list with `k` groups yields `k` summaries,
      and a list of groups only is kept whole. */
  lemma {:induction false} GroupsOfGroupsOnly(chats: seq<Chat>)
    requires forall i :: 0 <= i < |chats| ==> chats[i].isGroup
    ensures Groups(chats) == chats
  {
    if chats != [] {
      GroupsOfGroupsOnly(chats[1..]);
    }
  }

  lemma {:induction false} GroupsOfNoGroups(chats: seq<Chat>)
    requires forall i :: 0 <= i < |chats| ==> !chats[i].isGroup
    ensures Groups(chats) == []
  {
    if chats != [] {
      GroupsOfNoGroups(chats[1..]);
    }
  }
}
