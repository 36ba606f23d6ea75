/**
  The recipient list of `_send_compliance_status_notification` and the events
  one notification produces.
 */
module Notification {
  import opened Wrappers
  import opened Text

  /** The stripped, non-empty pieces, in order. */
  function Entries(parts: seq<string>): (r: seq<string>)
    ensures |r| <= |parts|
  {
    if parts == [] then []
    else
      var e := Strip(parts[0]);
      (if e != "" then [e] else []) + Entries(parts[1..])
  }

  /**
    Every entry is stripped and non-empty, every piece that strips to something
    non-empty is kept, and a character no piece holds is in no entry.
   */
  lemma EntriesSpec(parts: seq<string>, c: char)
    ensures forall i :: 0 <= i < |Entries(parts)| ==> Entries(parts)[i] != "" && IsStripped(Entries(parts)[i])
    ensures forall i :: 0 <= i < |parts| && Strip(parts[i]) != "" ==> Strip(parts[i]) in Entries(parts)
    ensures (forall i :: 0 <= i < |parts| ==> c !in parts[i]) ==>
            forall i :: 0 <= i < |Entries(parts)| ==> c !in Entries(parts)[i]
  {
    EntriesAreStripped(parts);
    EntriesKeepEveryPiece(parts);
    if forall i :: 0 <= i < |parts| ==> c !in parts[i] {
      EntriesKeepOut(parts, c);
    }
  }

  lemma {:induction false} EntriesAreStripped(parts: seq<string>)
    ensures forall i :: 0 <= i < |Entries(parts)| ==> Entries(parts)[i] != "" && IsStripped(Entries(parts)[i])
  {
    if parts != [] {
      var e := Strip(parts[0]);
      var rest := Entries(parts[1..]);
      EntriesAreStripped(parts[1..]);
      if e != "" {
        StripIsStripped(parts[0]);
        assert Entries(parts) == [e] + rest;
      } else {
        assert Entries(parts) == rest;
      }
    }
  }

  lemma {:induction false} EntriesKeepOut(parts: seq<string>, c: char)
    requires forall i :: 0 <= i < |parts| ==> c !in parts[i]
    ensures forall i :: 0 <= i < |Entries(parts)| ==> c !in Entries(parts)[i]
  {
    if parts != [] {
      var e := Strip(parts[0]);
      var rest := Entries(parts[1..]);
      EntriesKeepOut(parts[1..], c);
      if e != "" {
        StripRemovesOnlySpace(parts[0]);
        var start := |parts[0]| - |StripStart(parts[0])|;
        forall i | 0 <= i < |e|
          ensures e[i] != c
        {
          assert e[i] == parts[0][start + i];
        }
        assert Entries(parts) == [e] + rest;
      } else {
        assert Entries(parts) == rest;
      }
    }
  }

  lemma {:induction false} EntriesKeepEveryPiece(parts: seq<string>)
    ensures forall i :: 0 <= i < |parts| && Strip(parts[i]) != "" ==> Strip(parts[i]) in Entries(parts)
  {
    if parts != [] {
      EntriesKeepEveryPiece(parts[1..]);
      forall i | 0 < i < |parts| && Strip(parts[i]) != ""
        ensures Strip(parts[i]) in Entries(parts)
      {
        assert parts[i] == parts[1..][i - 1];
      }
    }
  }

  /** Entries keep the pieces' order: the entries of two runs of pieces are the entries of each, in turn. */
  lemma {:induction false} EntriesAppend(a: seq<string>, b: seq<string>)
    ensures Entries(a + b) == Entries(a) + Entries(b)
  {
    if a != [] {
      assert (a + b)[0] == a[0];
      assert (a + b)[1..] == a[1..] + b;
      EntriesAppend(a[1..], b);
    } else {
      assert a + b == b;
    }
  }

  /** The entries of the comma-separated setting; an unset or empty setting gives none. */
  function SettingEntries(setting: Option<string>): seq<string> {
    if setting.Some? && setting.value != "" then Entries(Split(setting.value, ',')) else []
  }

  /**
    Setting entries are stripped, non-empty and free of commas, and every
    comma-separated piece of the setting that strips to something non-empty
    is one of them.
   */
  lemma SettingEntriesSpec(setting: Option<string>)
    ensures var r := SettingEntries(setting);
      forall i :: 0 <= i < |r| ==> r[i] != "" && IsStripped(r[i]) && ',' !in r[i]
    ensures setting.Some? ==>
      var parts := Split(setting.value, ',');
      forall i :: 0 <= i < |parts| && Strip(parts[i]) != "" ==> Strip(parts[i]) in SettingEntries(setting)
  {
    if setting.Some? && setting.value == "" {
      assert Split(setting.value, ',') == [""];
      assert Strip("") == "";
    }
    if setting.Some? && setting.value != "" {
      EntriesSpec(Split(setting.value, ','), ',');
    }
  }

  /** The group loop: each non-empty address not yet in the list is appended. */
  function AddGroupEmails(emails: seq<string>, group: seq<string>): seq<string>
    decreases |group|
  {
    if group == [] then emails
    else
      var g := group[0];
      AddGroupEmails(if g != "" && g !in emails then emails + [g] else emails, group[1..])
  }

  /** `emails_to_notify`: the setting's entries, then the group members' addresses. */
  function Recipients(setting: Option<string>, group: seq<string>): seq<string> {
    AddGroupEmails(SettingEntries(setting), group)
  }

  /** Every address appended by the group step is non-empty, from the group, and new. */
  predicate AppendsOnlyNew(emails: seq<string>, group: seq<string>, r: seq<string>) {
    && |emails| <= |r| && r[..|emails|] == emails
    && (forall i :: |emails| <= i < |r| ==> r[i] != "" && r[i] in group && r[i] !in r[..i])
  }

  lemma {:induction false} AddGroupEmailsSpec(emails: seq<string>, group: seq<string>)
    decreases |group|
    ensures AppendsOnlyNew(emails, group, AddGroupEmails(emails, group))
    ensures forall g :: g in group && g != "" ==> g in AddGroupEmails(emails, group)
    ensures forall e :: e in emails ==> e in AddGroupEmails(emails, group)
  {
    if group != [] {
      var g := group[0];
      var next := if g != "" && g !in emails then emails + [g] else emails;
      AddGroupEmailsSpec(next, group[1..]);
      var r := AddGroupEmails(emails, group);
      assert r[..|next|] == next;
      assert r[..|emails|] == next[..|emails|];
      forall i | |emails| <= i < |r|
        ensures r[i] != "" && r[i] in group && r[i] !in r[..i]
      {
        if i < |next| {
          assert r[..i] == emails;
        }
      }
      forall x | x in group && x != ""
        ensures x in r
      {
        if x != g {
          assert x in group[1..];
        }
      }
    }
  }

  /**
    The group step is a left-to-right loop: the last member's address is
    considered after all earlier ones, and appended only if non-empty and new.
   */
  lemma {:induction false} AddGroupEmailsSnoc(emails: seq<string>, group: seq<string>, g: string)
    decreases |group|
    ensures AddGroupEmails(emails, group + [g])
         == (var r := AddGroupEmails(emails, group); if g != "" && g !in r then r + [g] else r)
  {
    if group == [] {
      assert ([g])[1..] == [];
    } else {
      var h := group[0];
      var next := if h != "" && h !in emails then emails + [h] else emails;
      assert (group + [g])[0] == h;
      assert (group + [g])[1..] == group[1..] + [g];
      AddGroupEmailsSnoc(next, group[1..], g);
    }
  }

  predicate NoDuplicates(s: seq<string>) {
    forall i, j :: 0 <= i < j < |s| ==> s[i] != s[j]
  }

  /** The group step never introduces a duplicate. */
  lemma NoDuplicatesPreserved(emails: seq<string>, group: seq<string>)
    requires NoDuplicates(emails)
    ensures NoDuplicates(AddGroupEmails(emails, group))
  {
    var r := AddGroupEmails(emails, group);
    AddGroupEmailsSpec(emails, group);
    forall i, j | 0 <= i < j < |r|
      ensures r[i] != r[j]
    {
      if j >= |emails| {
        assert r[i] in r[..j];
      } else {
        assert r[i] == emails[i] && r[j] == emails[j];
      }
    }
  }

  /**
    The recipients: the setting's entries first and in order, each stripped and
    non-empty; then every non-empty group address not already listed.
   */
  lemma RecipientsSpec(setting: Option<string>, group: seq<string>)
    ensures var r := Recipients(setting, group);
      && AppendsOnlyNew(SettingEntries(setting), group, r)
      && (forall i :: 0 <= i < |r| ==> r[i] != "")
      && (forall g :: g in group && g != "" ==> g in r)
    ensures setting.Some? ==>
      var parts := Split(setting.value, ',');
      forall i :: 0 <= i < |parts| && Strip(parts[i]) != "" ==> Strip(parts[i]) in Recipients(setting, group)
  {
    var entries := SettingEntries(setting);
    var r := Recipients(setting, group);
    SettingEntriesSpec(setting);
    AddGroupEmailsSpec(entries, group);
    forall i | 0 <= i < |r|
      ensures r[i] != ""
    {
      if i < |entries| {
        assert r[i] == r[..|entries|][i] == entries[i];
      }
    }
    forall x | x in entries
      ensures x in r
    {
      var j :| 0 <= j < |entries| && entries[j] == x;
      assert r[..|entries|][j] == x;
    }
  }

  /** A group member added at the end is considered after every earlier member, in group order. */
  lemma RecipientsFollowGroupOrder(setting: Option<string>, group: seq<string>, g: string)
    ensures Recipients(setting, group + [g])
         == (var r := Recipients(setting, group); if g != "" && g !in r then r + [g] else r)
  {
    AddGroupEmailsSnoc(SettingEntries(setting), group, g);
  }

  /** The `email_to` field lists the recipients, which split back out when no group address has a comma. */
  lemma EmailToRoundTrip(setting: Option<string>, group: seq<string>)
    requires Recipients(setting, group) != []
    requires forall g :: g in group ==> ',' !in g
    ensures Split(Join(Recipients(setting, group), ','), ',') == Recipients(setting, group)
  {
    var r := Recipients(setting, group);
    RecipientsSpec(setting, group);
    SettingEntriesSpec(setting);
    forall i | 0 <= i < |r|
      ensures ',' !in r[i]
    {
      if i < |SettingEntries(setting)| {
        assert r[i] == SettingEntries(setting)[i];
      }
    }
    SplitJoin(r, ',');
  }

  /** What one notification leaves behind: one e-mail when there are recipients, and always exactly one chatter note. */
  datatype Event = EmailSent(emailTo: string) | ChatterNote

  function NotificationEvents(recipients: seq<string>): (r: seq<Event>)
    ensures |r| == (if recipients == [] then 1 else 2)
    ensures r[|r| - 1] == ChatterNote
    ensures recipients != [] ==> r[0] == EmailSent(Join(recipients, ','))
    ensures EmailSent(Join(recipients, ',')) in r <==> recipients != []
  {
    (if recipients != [] then [EmailSent(Join(recipients, ','))] else []) + [ChatterNote]
  }

  /** Builds `emails_to_notify` as the source does: extend with the setting, then append group addresses. */
  method CollectRecipients(setting: Option<string>, group: seq<string>) returns (emails: seq<string>)
    ensures emails == Recipients(setting, group)
    ensures forall i :: 0 <= i < |emails| ==> emails[i] != ""
    ensures forall g :: g in group && g != "" ==> g in emails
  {
    emails := [];
    if setting.Some? && setting.value != "" {
      emails := emails + SettingEntries(setting);
    }
    assert emails == SettingEntries(setting);
    assert group[0..] == group;
    var i := 0;
    while i < |group|
      invariant 0 <= i <= |group|
      invariant AddGroupEmails(emails, group[i..]) == Recipients(setting, group)
    {
      var g := group[i];
      if g != "" && g !in emails {
        emails := emails + [g];
      }
      assert group[i..][1..] == group[i + 1..];
      i := i + 1;
    }
    RecipientsSpec(setting, group);
  }
}
