/**
 * The command-line client's session: the pagination tokens of the last
 * remarks and tags listings, and a flag recording whether anything changed
 * since the session was loaded (so that it needs saving).
 */
module Sessions {
  import opened Outcomes

  /** The one attribute a `change_attribute` call replaces. */
  datatype SessionAttribute =
    | RemarksPaginationToken(token: Option<string>)
    | TagsPaginationToken(token: Option<string>)

  /** The observable state of a session. */
  datatype SessionState = SessionState(remarksToken: Option<string>, tagsToken: Option<string>, isChanged: bool)

  /** The derived `Default`: no tokens, nothing changed. */
  const DEFAULT_STATE := SessionState(None, None, false)

  /**
   * The state after a sequence of attribute changes: each remarks token
   * change overwrites the remarks token, each tags token change the tags
   * token, and any change marks the session changed.
   */
  function Replay(s: SessionState, changes: seq<SessionAttribute>): SessionState
    decreases |changes|
  {
    if changes == [] then s
    else
      var c := changes[|changes| - 1];
      var before := Replay(s, changes[..|changes| - 1]);
      match c
      case RemarksPaginationToken(token) => before.(remarksToken := token, isChanged := true)
      case TagsPaginationToken(token) => before.(tagsToken := token, isChanged := true)
  }

  /** The remarks token written last in `changes`, or `initial` when none was. */
  function LastRemarksToken(initial: Option<string>, changes: seq<SessionAttribute>): Option<string>
    decreases |changes|
  {
    if changes == [] then initial
    else if changes[|changes| - 1].RemarksPaginationToken? then changes[|changes| - 1].token
    else LastRemarksToken(initial, changes[..|changes| - 1])
  }

  /** The tags token written last in `changes`, or `initial` when none was. */
  function LastTagsToken(initial: Option<string>, changes: seq<SessionAttribute>): Option<string>
    decreases |changes|
  {
    if changes == [] then initial
    else if changes[|changes| - 1].TagsPaginationToken? then changes[|changes| - 1].token
    else LastTagsToken(initial, changes[..|changes| - 1])
  }

  /**
   * Over any sequence of changes the getters return the value set most
   * recently, the two tokens never interfere, and the changed flag is set
   * by the first change and never cleared.
   */
  lemma {:induction false} ReplayTracksLatest(s: SessionState, changes: seq<SessionAttribute>)
    ensures Replay(s, changes).remarksToken == LastRemarksToken(s.remarksToken, changes)
    ensures Replay(s, changes).tagsToken == LastTagsToken(s.tagsToken, changes)
    ensures Replay(s, changes).isChanged <==> s.isChanged || changes != []
    decreases |changes|
  {
    if changes != [] {
      ReplayTracksLatest(s, changes[..|changes| - 1]);
    }
  }

  class Session {
    var remarksPaginationToken: Option<string>
    var tagsPaginationToken: Option<string>
    var isChanged: bool

    function View(): SessionState
      reads this
    {
      SessionState(remarksPaginationToken, tagsPaginationToken, isChanged)
    }

    /** `Session::default()`, which is also what `reset` builds before saving it. */
    constructor ()
      ensures View() == DEFAULT_STATE
    {
      remarksPaginationToken := None;
      tagsPaginationToken := None;
      isChanged := false;
    }

    /** `change_attribute`: marks the session changed and replaces the one attribute. */
    method ChangeAttribute(attribute: SessionAttribute)
      modifies this
      ensures View() == Replay(old(View()), [attribute])
      ensures isChanged
      ensures attribute.RemarksPaginationToken? ==>
        remarksPaginationToken == attribute.token && tagsPaginationToken == old(tagsPaginationToken)
      ensures attribute.TagsPaginationToken? ==>
        tagsPaginationToken == attribute.token && remarksPaginationToken == old(remarksPaginationToken)
    {
      isChanged := true;
      match attribute
      case RemarksPaginationToken(token) =>
        remarksPaginationToken := token;
      case TagsPaginationToken(token) =>
        tagsPaginationToken := token;
    }

    method ClearRemarksPaginationToken()
      modifies this
      ensures View() == old(View()).(remarksToken := None, isChanged := true)
    {
      ChangeAttribute(RemarksPaginationToken(None));
    }

    method ClearTagsPaginationToken()
      modifies this
      ensures View() == old(View()).(tagsToken := None, isChanged := true)
    {
      ChangeAttribute(TagsPaginationToken(None));
    }

    method SetRemarksPaginationToken(token: string)
      modifies this
      ensures View() == old(View()).(remarksToken := Some(token), isChanged := true)
    {
      ChangeAttribute(RemarksPaginationToken(Some(token)));
    }

    method SetTagsPaginationToken(token: string)
      modifies this
      ensures View() == old(View()).(tagsToken := Some(token), isChanged := true)
    {
      ChangeAttribute(TagsPaginationToken(Some(token)));
    }

    function IsChanged(): bool
      reads this
    {
      isChanged
    }

    function RemarksToken(): Option<string>
      reads this
    {
      remarksPaginationToken
    }

    function TagsToken(): Option<string>
      reads this
    {
      tagsPaginationToken
    }
  }
}
