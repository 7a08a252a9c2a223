/** The directory search box of the attendee picker
    (frontend/src/taskpane/components/attendees/InternalUserSearch.tsx). The
    directory's answer to a search is an input of the search step. */
module InternalUserSearch {
  import opened Wrappers
  import opened JsStrings
  import opened Attendees
  import opened Seqs

  /** How many users one search asks the directory for. */
  const SearchLimit: nat := 10

  const SearchFailedMessage := "Failed to search users"

  /** What the directory returned: users, or a failure with its message
      ("" when the error carries none). */
  datatype SearchResponse = Found(users: seq<GraphUser>) | Failed(message: string)

  datatype SearchRequest = SearchRequest(query: string, limit: nat)

  /** The query gate: something other than white space, and at least two characters. */
  predicate IssuesSearch(query: string) {
    Trim(query) != "" && |query| >= 2
  }

  /** The returned users, in order, minus those whose `mail` or
      `userPrincipalName` is already selected. */
  function ExcludeSelected(users: seq<GraphUser>, excludeEmails: seq<string>): (r: seq<GraphUser>)
    ensures |r| <= |users|
    ensures forall i :: 0 <= i < |r| ==> r[i] in users && r[i].mail !in excludeEmails
                                         && r[i].userPrincipalName !in excludeEmails
    ensures forall i :: (0 <= i < |users| && users[i].mail !in excludeEmails
                         && users[i].userPrincipalName !in excludeEmails) ==> users[i] in r
  {
    if users == [] then []
    else
      var u := users[0];
      (if u.mail in excludeEmails || u.userPrincipalName in excludeEmails then [] else [u])
      + ExcludeSelected(users[1..], excludeEmails)
  }

  /** The exclusion keeps the directory's order: it distributes over concatenation. */
  lemma {:induction false} ExcludeSelectedConcat(a: seq<GraphUser>, b: seq<GraphUser>, excludeEmails: seq<string>)
    ensures ExcludeSelected(a + b, excludeEmails) == ExcludeSelected(a, excludeEmails) + ExcludeSelected(b, excludeEmails)
  {
    if a == [] {
      assert a + b == b;
    } else {
      assert (a + b)[1..] == a[1..] + b;
      ExcludeSelectedConcat(a[1..], b, excludeEmails);
    }
  }

  /** The first character of every piece (`charAt(0)`, "" for an empty piece), concatenated. */
  function Heads(parts: seq<string>): (r: string)
    ensures |r| <= |parts|
  {
    if parts == [] then ""
    else (if parts[0] == "" then "" else [parts[0][0]]) + Heads(parts[1..])
  }

  /** `getInitials`: the first characters of the space-separated pieces, at
      most two of them, uppercased. */
  function GetInitials(displayName: string): (r: string)
    ensures |r| <= 2
  {
    var h := Heads(Split(displayName, ' '));
    ToUpper(if |h| <= 2 then h else h[..2])
  }

  function IsWord(piece: string): bool { piece != "" }

  /** Empty pieces contribute nothing: the heads are those of the words. */
  lemma {:induction false} HeadsSkipsEmpty(parts: seq<string>)
    ensures Heads(parts) == Heads(Filter(parts, IsWord))
  {
    if parts != [] {
      HeadsSkipsEmpty(parts[1..]);
      var rest := Filter(parts[1..], IsWord);
      if parts[0] != "" {
        assert Filter(parts, IsWord) == [parts[0]] + rest;
        assert ([parts[0]] + rest)[1..] == rest;
        assert Heads([parts[0]] + rest) == [parts[0][0]] + Heads(rest);
      } else {
        assert Filter(parts, IsWord) == [] + rest == rest;
        assert Heads(parts) == "" + Heads(parts[1..]);
      }
    }
  }

  /** Of words, the heads are one first character per word, in order. */
  lemma {:induction false} HeadsOfWords(words: seq<string>)
    requires forall k :: 0 <= k < |words| ==> words[k] != ""
    ensures |Heads(words)| == |words|
    ensures forall k :: 0 <= k < |words| ==> Heads(words)[k] == words[k][0]
  {
    if words != [] {
      HeadsOfWords(words[1..]);
      assert Heads(words) == [words[0][0]] + Heads(words[1..]);
    }
  }

  /** Whatever the spacing (leading, trailing or doubled spaces), the
      initials are the uppercased first letters of the first two non-empty
      space-separated pieces, or of the only one. */
  lemma GetInitialsSpec(displayName: string)
    ensures var words := Filter(Split(displayName, ' '), IsWord);
            var r := GetInitials(displayName);
            && |r| == (if |words| < 2 then |words| else 2)
            && forall k :: 0 <= k < |r| ==> r[k] == UpperChar(words[k][0])
  {
    var words := Filter(Split(displayName, ' '), IsWord);
    HeadsSkipsEmpty(Split(displayName, ' '));
    HeadsOfWords(words);
  }

  /** A name of two or more words separated by single spaces gets the
      uppercased first letters of its first two words. */
  lemma GetInitialsOfWords(words: seq<string>)
    requires |words| >= 2
    requires forall k :: 0 <= k < |words| ==> words[k] != "" && ' ' !in words[k]
    ensures GetInitials(Join(words, " ")) == [UpperChar(words[0][0]), UpperChar(words[1][0])]
  {
    var name := Join(words, " ");
    assert [' '] == " ";
    SplitJoinInverse(words, ' ');
    HeadsOfWords(words);
    InitialsOfTwoHeads(name);
  }

  /** With two heads or more, the initials are the first two, uppercased. */
  lemma InitialsOfTwoHeads(name: string)
    requires |Heads(Split(name, ' '))| >= 2
    ensures var h := Heads(Split(name, ' '));
            GetInitials(name) == [UpperChar(h[0]), UpperChar(h[1])]
  {
    var h := Heads(Split(name, ' '));
    var r := ToUpper(h[..2]);
    assert |r| == 2 && r[0] == UpperChar(h[0]) && r[1] == UpperChar(h[1]);
  }

  /** A one-word name gets its uppercased first letter. */
  lemma GetInitialsOfOneWord(word: string)
    requires word != "" && ' ' !in word
    ensures GetInitials(word) == [UpperChar(word[0])]
  {
    SplitNoSeparator(word, ' ');
    assert Heads([word]) == [word[0]];
  }

  /** The search box's state; `excludeEmails` is the prop. */
  class InternalUserSearch {
    const excludeEmails: seq<string>
    var searchQuery: string
    var searchResults: seq<GraphUser>
    var isSearching: bool
    var error: Option<string>
    var showResults: bool

    constructor(excludeEmails: seq<string>)
      ensures this.excludeEmails == excludeEmails
      ensures searchQuery == "" && searchResults == [] && !isSearching && error == None && !showResults
    {
      this.excludeEmails := excludeEmails;
      searchQuery := "";
      searchResults := [];
      isSearching := false;
      error := None;
      showResults := false;
    }

    /** `searchUsers(query)` run to its end, given the directory's response.
        Returns the request sent, or `None` when the gate stops the search and
        the results are emptied and hidden. */
    method SearchUsers(query: string, response: SearchResponse) returns (request: Option<SearchRequest>)
      modifies this
      ensures searchQuery == old(searchQuery)
      ensures !IssuesSearch(query) ==> && request == None && searchResults == [] && !showResults
                                       && isSearching == old(isSearching) && error == old(error)
      ensures IssuesSearch(query) ==> request == Some(SearchRequest(query, SearchLimit)) && !isSearching
      ensures IssuesSearch(query) && response.Found? ==>
                && searchResults == ExcludeSelected(response.users, excludeEmails)
                && showResults && error == None
      ensures IssuesSearch(query) && response.Failed? ==>
                && searchResults == [] && showResults == old(showResults)
                && error == Some(if response.message != "" then response.message else SearchFailedMessage)
    {
      if Trim(query) == "" || |query| < 2 {
        searchResults := [];
        showResults := false;
        return None;
      }
      isSearching := true;
      error := None;
      request := Some(SearchRequest(query, SearchLimit));
      match response {
        case Found(users) =>
          searchResults := ExcludeSelected(users, excludeEmails);
          showResults := true;
        case Failed(message) =>
          error := Some(if message != "" then message else SearchFailedMessage);
          searchResults := [];
      }
      isSearching := false;
    }

    /** `handleUserSelect`: the user goes to `onUserSelect`, and the query,
        the results and their visibility are reset. */
    method HandleUserSelect(user: GraphUser) returns (selected: GraphUser)
      modifies this
      ensures selected == user
      ensures searchQuery == "" && searchResults == [] && !showResults
      ensures isSearching == old(isSearching) && error == old(error)
    {
      selected := user;
      searchQuery := "";
      searchResults := [];
      showResults := false;
    }
  }
}
