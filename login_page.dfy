/** The sign-in page's check of its two input fields before it tries to log in: the trimmed
    username must be a student id of the form dd-ddddd-d or an employee id of the form
    dddd-ddd-d, and the password must not be empty. Both fields are checked, each flagged on
    its own, and nothing is sent to the portal unless both pass. */
module LoginPage {
  import opened Wrappers
  import opened Text

  const UsernameRequired: string := "Username is required"
  const UsernameFormat: string := "Enter ID in XX-XXXXX-X format"
  const PasswordRequired: string := "Password is required"

  /** `s` has a '-' at each index of `dashes` and an ASCII digit everywhere else. */
  predicate DigitsWithDashes(s: string, dashes: set<int>) {
    forall i :: 0 <= i < |s| ==> (if i in dashes then s[i] == '-' else IsDigit(s[i]))
  }

  /** `_usernamePattern.IsMatch`: the whole string is `\d{2}-\d{5}-\d{1}` or
      `\d{4}-\d{3}-\d{1}`. */
  predicate UsernamePattern(s: string) {
    |s| == 10 && (DigitsWithDashes(s, {2, 8}) || DigitsWithDashes(s, {4, 8}))
  }

  /** The lengths of a sequence of pieces. */
  function Lengths(parts: seq<string>): (r: seq<nat>)
    ensures |r| == |parts| && forall k :: 0 <= k < |parts| ==> r[k] == |parts[k]|
  {
    seq(|parts|, k requires 0 <= k < |parts| => |parts[k]|)
  }

  /** An independent reading of the pattern: three dash-separated groups of digits, of
      lengths 2, 5, 1 or 4, 3, 1. */
  predicate IdGroups(s: string) {
    var parts := Split(s, '-');
    (forall k :: 0 <= k < |parts| ==> AllDigits(parts[k])) &&
    (Lengths(parts) == [2, 5, 1] || Lengths(parts) == [4, 3, 1])
  }

  /** A string cut at two dashes into dash-free pieces `a`, `b`, `c`. */
  lemma SplitThree(a: string, b: string, c: string)
    requires '-' !in a && '-' !in b && '-' !in c
    ensures Split(a + "-" + b + "-" + c, '-') == [a, b, c]
  {
    assert a + "-" + b + "-" + c == a + ['-'] + (b + ['-'] + c);
    SplitAround(a, b + ['-'] + c, '-');
    SplitSingle(a, '-');
    SplitPair(b, c, '-');
  }

  /** A string matching the pattern reads as three groups of the right lengths. */
  lemma PatternGivesGroups(s: string)
    requires UsernamePattern(s)
    ensures IdGroups(s)
  {
    var d := if DigitsWithDashes(s, {2, 8}) then 2 else 4;
    var a, b, c := s[..d], s[d + 1..8], s[9..];
    assert DigitsWithDashes(s, {d, 8});
    assert s == a + "-" + b + "-" + c;
    assert AllDigits(a) && AllDigits(b) && AllDigits(c);
    SplitThree(a, b, c);
  }

  /** Three pieces put back together around two dashes. */
  lemma JoinThree(parts: seq<string>)
    requires |parts| == 3
    ensures Join(parts, '-') == parts[0] + ['-'] + (parts[1] + ['-'] + parts[2])
  {
    assert parts[1..] == [parts[1], parts[2]];
    assert parts[1..][1..] == [parts[2]];
    assert Join(parts[1..][1..], '-') == parts[2];
    assert Join(parts[1..], '-') == parts[1] + ['-'] + parts[2];
  }

  /** Three groups of the right lengths match the pattern. */
  lemma GroupsGivePattern(s: string)
    requires IdGroups(s)
    ensures UsernamePattern(s)
  {
    var parts := Split(s, '-');
    var a, b, c := parts[0], parts[1], parts[2];
    JoinSplit(s, '-');
    JoinThree(parts);
    assert AllDigits(a) && AllDigits(b) && AllDigits(c);
    var d := |a|;
    assert s == a + ['-'] + (b + ['-'] + c);
    assert forall i :: 0 <= i < d ==> s[i] == a[i];
    assert forall i :: d + 1 <= i < d + 1 + |b| ==> s[i] == b[i - d - 1];
    assert forall i :: d + 2 + |b| <= i < |s| ==> s[i] == c[i - d - 2 - |b|];
    assert DigitsWithDashes(s, {d, 8});
  }

  /** The pattern and the group reading agree, in both directions. */
  lemma PatternIsGroups(s: string)
    ensures UsernamePattern(s) <==> IdGroups(s)
  {
    if UsernamePattern(s) {
      PatternGivesGroups(s);
    }
    if IdGroups(s) {
      GroupsGivePattern(s);
    }
  }

  /** The error each field shows after the check, if any. */
  datatype Validation = Validation(usernameError: Option<string>, passwordError: Option<string>)

  /** The username as validated: the field's text trimmed (a missing text stays missing). */
  function TrimmedUsername(text: Option<string>): Option<string> {
    match text
    case None => None
    case Some(t) => Some(Trim(t))
  }

  /** The checks of `Login_Button_Clicked`: an empty or missing username is required, a
      username off the pattern is asked for in the id format, and an empty or missing password
      is required; the password check does not depend on the username's. */
  function Validate(usernameText: Option<string>, passwordText: Option<string>): (v: Validation)
    ensures v.usernameError.None? <==>
      (TrimmedUsername(usernameText).Some? && UsernamePattern(TrimmedUsername(usernameText).value))
    ensures v.passwordError.None? <==> passwordText.Some? && passwordText.value != ""
  {
    var username := TrimmedUsername(usernameText);
    var usernameError :=
      if username.None? || username.value == "" then Some(UsernameRequired)
      else if !UsernamePattern(username.value) then Some(UsernameFormat)
      else None;
    var passwordError := if passwordText.None? || passwordText.value == "" then Some(PasswordRequired) else None;
    Validation(usernameError, passwordError)
  }

  /** The username message: blank input (white space only, once trimmed) is "required", any
      other rejected input is asked for in the id format. */
  lemma UsernameMessages(usernameText: Option<string>, passwordText: Option<string>)
    ensures var v := Validate(usernameText, passwordText);
      ((TrimmedUsername(usernameText) == None || TrimmedUsername(usernameText) == Some("")) ==>
         v.usernameError == Some(UsernameRequired)) &&
      ((TrimmedUsername(usernameText).Some? && TrimmedUsername(usernameText).value != "" &&
        !UsernamePattern(TrimmedUsername(usernameText).value)) ==> v.usernameError == Some(UsernameFormat))
  {
  }

  /** Surrounding white space around a well-formed id is forgiven; none in a password is. */
  lemma TrimmedNotPassword(id: string, password: string)
    requires UsernamePattern(id) && password != ""
    ensures Validate(Some(" " + id + "\t"), Some(password)) == Validation(None, None)
  {
    var padded := " " + id + "\t";
    assert padded[1..] == id + "\t";
    assert (id + "\t")[..|id|] == id;
    assert IsDigit(id[0]) && IsDigit(id[9]) by {
      assert 0 !in {2, 8} && 0 !in {4, 8} && 9 !in {2, 8} && 9 !in {4, 8};
    }
    TrimUnchanged(id);
    assert Trim(padded) == Trim(id + "\t");
    assert (id + "\t")[0] == id[0];
    assert Trim(id + "\t") == Trim(id);
  }

  /** The checks are independent: each field's error depends on that field alone, so both can
      be flagged by one click. */
  lemma ChecksIndependent(u1: Option<string>, u2: Option<string>, p1: Option<string>, p2: Option<string>)
    ensures Validate(u1, p1).usernameError == Validate(u1, p2).usernameError
    ensures Validate(u1, p1).passwordError == Validate(u2, p1).passwordError
    ensures Validate(None, None) == Validation(Some(UsernameRequired), Some(PasswordRequired))
  {
  }

  /** An input field of the page: its text (null when never typed into), whether it shows the
      error colours, and its placeholder. */
  class Entry {
    var text: Option<string>
    var flagged: bool
    var placeholder: string

    constructor(text: Option<string>, placeholder: string)
      ensures this.text == text && !flagged && this.placeholder == placeholder
    {
      this.text := text;
      flagged := false;
      this.placeholder := placeholder;
    }

    /** A rejected field: its text cleared, the error colours on and the message shown as the
        placeholder. */
    method Reject(message: string)
      modifies this
      ensures text == Some("") && flagged && placeholder == message
    {
      text := Some("");
      flagged := true;
      placeholder := message;
    }
  }

  /** The validation part of `Login_Button_Clicked`: flags the rejected fields and answers the
      credentials the portal login is then called with, or nothing when it returns early. */
  method LoginButtonClicked(usernameEntry: Entry, passwordEntry: Entry) returns (credentials: Option<(string, string)>)
    requires usernameEntry != passwordEntry
    modifies usernameEntry, passwordEntry
    ensures var v := Validate(old(usernameEntry.text), old(passwordEntry.text));
      && (credentials.Some? <==> v == Validation(None, None))
      && (credentials.Some? ==>
            credentials.value == (TrimmedUsername(old(usernameEntry.text)).value, old(passwordEntry.text).value))
      && (v.usernameError.Some? ==>
            usernameEntry.text == Some("") && usernameEntry.flagged && usernameEntry.placeholder == v.usernameError.value)
      && (v.usernameError.None? ==> unchanged(usernameEntry))
      && (v.passwordError.Some? ==>
            passwordEntry.text == Some("") && passwordEntry.flagged && passwordEntry.placeholder == v.passwordError.value)
      && (v.passwordError.None? ==> unchanged(passwordEntry))
  {
    var isValid := true;
    var username := TrimmedUsername(usernameEntry.text);
    var password := passwordEntry.text;

    if username.None? || username.value == "" {
      usernameEntry.Reject(UsernameRequired);
      isValid := false;
    } else if !UsernamePattern(username.value) {
      usernameEntry.Reject(UsernameFormat);
      isValid := false;
    }

    if password.None? || password.value == "" {
      passwordEntry.Reject(PasswordRequired);
      isValid := false;
    }

    if !isValid {
      return None;
    }
    credentials := Some((username.value, password.value));
  }
}
