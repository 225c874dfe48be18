/**
 * The conversation state shared by the chat screens (src/chat/ChatContext.tsx):
 * the list of conversations, the active conversation id, the loading flag, and
 * the copy of the active id kept in browser storage under "activeConversationId".
 */
module ChatState {
  import opened Wrappers
  import opened JsValue

  /** A conversation as listConversations and createConversation return it. */
  datatype Conversation = Conversation(id: int, createdAt: string)

  /** `list.some((item) => item.id === active)`: never true for a null active id. */
  predicate Listed(list: seq<Conversation>, active: Option<int>) {
    active.Some? && exists k :: 0 <= k < |list| && list[k].id == active.value
  }

  /**
   * The active id after a refresh returns `list`: the first conversation's id
   * when the list is non-empty and does not hold the current one; the current
   * one otherwise.
   */
  function RefreshedActiveId(list: seq<Conversation>, active: Option<int>): (r: Option<int>)
    ensures |list| > 0 ==> Listed(list, r)
    ensures Listed(list, active) || list == [] ==> r == active
    ensures r != active ==> |list| > 0 && r == Some(list[0].id)
  {
    if |list| > 0 && !Listed(list, active) then Some(list[0].id) else active
  }

  /** Refreshing twice with the same list selects what refreshing once does. */
  lemma RefreshSettles(list: seq<Conversation>, active: Option<int>)
    ensures RefreshedActiveId(list, RefreshedActiveId(list, active)) == RefreshedActiveId(list, active)
  {
    var once := RefreshedActiveId(list, active);
    if |list| > 0 {
      assert Listed(list, once);
    }
  }

  /** `created?.id`: a conversation was returned and its id is truthy, that is, not 0. */
  predicate Created(response: Option<Conversation>) {
    response.Some? && response.value.id != 0
  }

  // ---------------------------------------------------------------------------
  // The stored copy of the active id

  function DigitChar(d: nat): char
    requires d < 10
  {
    ('0' as int + d) as char
  }

  function DigitValue(c: char): nat
    requires '0' <= c <= '9'
  {
    (c as int - '0' as int) as nat
  }

  predicate AllDigits(s: string) {
    forall i :: 0 <= i < |s| ==> '0' <= s[i] <= '9'
  }

  /** The decimal digits of n, most significant first, with no leading zero. */
  function Digits(n: nat): (r: string)
    ensures |r| >= 1 && AllDigits(r)
    ensures r[0] == '0' ==> n == 0
    decreases n
  {
    if n < 10 then [DigitChar(n)] else Digits(n / 10) + [DigitChar(n % 10)]
  }

  /** The value of a string of decimal digits. */
  function DigitsValue(s: string): nat
    requires AllDigits(s)
  {
    if s == [] then 0 else 10 * DigitsValue(s[..|s| - 1]) + DigitValue(s[|s| - 1])
  }

  /** `String(n)` for an integer n: an optional minus sign, then the decimal digits. */
  function DecimalString(n: int): string {
    if n < 0 then "-" + Digits(-n) else Digits(n)
  }

  /** Decimal integer text read back: an optional minus sign followed by at least one digit. */
  function ParseDecimal(s: string): Option<int> {
    if |s| > 1 && s[0] == '-' && AllDigits(s[1..]) then Some(-(DigitsValue(s[1..]) as int))
    else if |s| > 0 && AllDigits(s) then Some(DigitsValue(s))
    else None
  }

  lemma {:induction false} DigitsRoundTrip(n: nat)
    ensures DigitsValue(Digits(n)) == n
    decreases n
  {
    if n >= 10 {
      DigitsRoundTrip(n / 10);
      DigitsValueAppend(Digits(n / 10), DigitChar(n % 10));
    }
  }

  /** One more digit at the end multiplies the value by ten and adds the digit. */
  lemma DigitsValueAppend(s: string, c: char)
    requires AllDigits(s) && '0' <= c <= '9'
    ensures AllDigits(s + [c])
    ensures DigitsValue(s + [c]) == 10 * DigitsValue(s) + DigitValue(c)
  {
    assert (s + [c])[..|s|] == s;
  }

  /** The decimal text of any integer reads back as that integer. */
  lemma DecimalRoundTrip(n: int)
    ensures ParseDecimal(DecimalString(n)) == Some(n)
  {
    if n < 0 {
      var m: nat := -n;
      DigitsRoundTrip(m);
      ParseNegative(Digits(m), m);
      assert DecimalString(n) == "-" + Digits(m);
    } else {
      DigitsRoundTrip(n);
      ParseNonNegative(Digits(n), n);
    }
  }

  lemma ParseNegative(digits: string, m: nat)
    requires |digits| >= 1 && AllDigits(digits) && DigitsValue(digits) == m
    ensures ParseDecimal("-" + digits) == Some(-(m as int))
  {
    assert ("-" + digits)[1..] == digits;
  }

  lemma ParseNonNegative(digits: string, m: nat)
    requires |digits| >= 1 && AllDigits(digits) && DigitsValue(digits) == m
    ensures ParseDecimal(digits) == Some(m as int)
  {
    assert '0' <= digits[0] <= '9';
  }

  /**
   * What the persistence effect leaves under "activeConversationId": the id's
   * decimal text when it is truthy, nothing when it is null or 0.
   */
  function StoredForm(active: Option<int>): (r: Option<string>)
    ensures r.None? <==> active.None? || active.value == 0
    ensures r.Some? ==> ParseDecimal(r.value) == active
  {
    if active.Some? && active.value != 0 then
      DecimalRoundTrip(active.value);
      Some(DecimalString(active.value))
    else None
  }

  // ---------------------------------------------------------------------------
  // The provider's state

  class ChatProvider {
    var conversations: seq<Conversation>
    var activeId: Option<int>
    var isLoading: bool
    /** localStorage["activeConversationId"] */
    var stored: Option<string>

    /** The initial state; the active id is the one read back from storage when the provider mounts. */
    constructor(initialActive: Option<int>, initialStored: Option<string>)
      ensures conversations == [] && activeId == initialActive && !isLoading && stored == initialStored
    {
      conversations := [];
      activeId := initialActive;
      isLoading := false;
      stored := initialStored;
    }

    /** setActiveConversationId */
    method SetActive(id: Option<int>)
      modifies this`activeId
      ensures activeId == id
    {
      activeId := id;
    }

    /**
     * refreshConversations, given what listConversations settles to: the list
     * becomes the response's data, or empty without data, and the active id
     * follows RefreshedActiveId; a rejection changes neither and is passed on.
     * Loading is over either way.
     */
    method Refresh(response: Completion<Option<seq<Conversation>>>) returns (thrown: Option<Thrown>)
      modifies this`conversations, this`activeId, this`isLoading
      ensures !isLoading
      ensures response.Abrupt? ==>
        thrown == Some(response.thrown) && conversations == old(conversations) && activeId == old(activeId)
      ensures response.Normal? ==>
        && thrown == None
        && conversations == (if response.value.Some? then response.value.value else [])
        && activeId == RefreshedActiveId(conversations, old(activeId))
    {
      isLoading := true;
      match response {
        case Abrupt(t) =>
          thrown := Some(t);
        case Normal(data) =>
          var list := if data.Some? then data.value else [];
          conversations := list;
          if |list| > 0 && !Listed(list, activeId) {
            activeId := Some(list[0].id);
          }
          thrown := None;
      }
      isLoading := false;
    }

    /**
     * startNewConversation, given what createConversation settles to: a
     * conversation with a truthy id goes first in the list, becomes active, and
     * its id is returned; otherwise nothing changes and null is returned; a
     * rejection is passed on. Loading is over either way.
     */
    method StartNew(response: Completion<Option<Conversation>>) returns (result: Completion<Option<int>>)
      modifies this`conversations, this`activeId, this`isLoading
      ensures !isLoading
      ensures response.Abrupt? ==>
        result == Abrupt(response.thrown) && conversations == old(conversations) && activeId == old(activeId)
      ensures response.Normal? && Created(response.value) ==>
        && conversations == [response.value.value] + old(conversations)
        && activeId == Some(response.value.value.id)
        && result == Normal(Some(response.value.value.id))
      ensures response.Normal? && !Created(response.value) ==>
        result == Normal(None) && conversations == old(conversations) && activeId == old(activeId)
    {
      isLoading := true;
      match response {
        case Abrupt(t) =>
          result := Abrupt(t);
        case Normal(created) =>
          if created.Some? && created.value.id != 0 {
            conversations := [created.value] + conversations;
            activeId := Some(created.value.id);
            result := Normal(Some(created.value.id));
          } else {
            result := Normal(None);
          }
      }
      isLoading := false;
    }

    /**
     * logout: the list, the active id and the stored copy are cleared whether or
     * not the sign-out of the auth context throws; what it throws is passed on.
     */
    method Logout(authLogout: Completion<()>) returns (thrown: Option<Thrown>)
      modifies this`conversations, this`activeId, this`stored
      ensures conversations == [] && activeId == None && stored == None
      ensures thrown == if authLogout.Abrupt? then Some(authLogout.thrown) else None
    {
      thrown := if authLogout.Abrupt? then Some(authLogout.thrown) else None;
      conversations := [];
      activeId := None;
      stored := None;
    }

    /** The persistence effect, run after each change of the active id. */
    method PersistActiveId()
      modifies this`stored
      ensures stored == StoredForm(activeId)
    {
      if activeId.Some? && activeId.value != 0 {
        stored := Some(DecimalString(activeId.value));
      } else {
        stored := None;
      }
    }
  }

  /** After a refresh with a non-empty list and the effect that follows it, storage names a listed conversation, unless its id is 0. */
  lemma RefreshThenPersist(list: seq<Conversation>, active: Option<int>)
    requires |list| > 0
    ensures var r := RefreshedActiveId(list, active);
      StoredForm(r).None? <==> r.value == 0
    ensures var r := RefreshedActiveId(list, active);
      StoredForm(r).Some? ==> exists k :: 0 <= k < |list| && ParseDecimal(StoredForm(r).value) == Some(list[k].id)
  {
  }
}
