/** A campaign's audience: the counts the preview shows and the leads a send goes to. */
module Audience {
  import opened Wrappers

  const LOOKUP_CHUNK := 1000
  const SAMPLE_SIZE := 5

  datatype Lead = Lead(
    id: string, email: Option<string>, excludeFromSend: bool,
    fitTier: string, waveKey: string, state: string, abGroup: string, channel: string, tags: set<string>)

  datatype Message = Message(lead: string, step: int, body: string)

  // The collections at one moment.
  datatype Store = Store(leads: seq<Lead>, suppressions: seq<string>, messages: seq<Message>)

  // Either listed leads or those that pass every filter given; an empty filter is not given.
  datatype Selection =
    | Listed(ids: set<string>)
    | Filtered(tier: string, wave: string, state: string, abGroup: string, channel: string, tags: set<string>)

  datatype CampaignAudience = CampaignAudience(selection: Selection, excludeIds: set<string>)

  predicate Passes(filter: string, value: string) { filter == "" || filter == value }

  predicate Matches(a: CampaignAudience, lead: Lead) {
    && lead.id !in a.excludeIds
    && match a.selection
       case Listed(ids) => lead.id in ids
       case Filtered(tier, wave, state, abGroup, channel, tags) =>
         && Passes(tier, lead.fitTier) && Passes(wave, lead.waveKey) && Passes(state, lead.state)
         && Passes(abGroup, lead.abGroup) && Passes(channel, lead.channel)
         && (tags == {} || tags * lead.tags != {})
  }

  predicate Mailable(lead: Lead) {
    !lead.excludeFromSend && lead.email.Some? && lead.email.value != ""
  }

  function Select(a: CampaignAudience, leads: seq<Lead>): (r: seq<Lead>)
    ensures forall l :: l in r <==> l in leads && Matches(a, l)
  {
    if leads == [] then []
    else Select(a, leads[..|leads| - 1]) + if Matches(a, leads[|leads| - 1]) then [leads[|leads| - 1]] else []
  }

  function OnlyMailable(leads: seq<Lead>): (r: seq<Lead>)
    ensures forall l :: l in r <==> l in leads && Mailable(l)
  {
    if leads == [] then []
    else OnlyMailable(leads[..|leads| - 1]) + if Mailable(leads[|leads| - 1]) then [leads[|leads| - 1]] else []
  }

  // ----- Who gets the mail -----

  predicate Sendable(store: Store, lead: Lead) {
    Mailable(lead) && lead.email.value !in store.suppressions
  }

  datatype Recipient = Recipient(id: string, email: string)

  // Exactly the sendable leads, in the order of the store.
  function Recipients(store: Store, leads: seq<Lead>): (r: seq<Recipient>)
    ensures forall x :: x in r <==> exists l :: l in leads && Sendable(store, l) && x == Recipient(l.id, l.email.value)
  {
    if leads == [] then []
    else
      var last, before := leads[|leads| - 1], leads[..|leads| - 1];
      assert forall l :: l in leads <==> l in before || l == last;
      Recipients(store, before) + if Sendable(store, last) then [Recipient(last.id, last.email.value)] else []
  }

  // The audience and its recipients are in the order of the store: of a list in two parts, those of the first
  // part come first.
  lemma {:induction false} RecipientsInOrder(store: Store, first: seq<Lead>, second: seq<Lead>)
    ensures Recipients(store, first + second) == Recipients(store, first) + Recipients(store, second)
    ensures |second| == 1 ==> |Recipients(store, second)| <= 1
  {
    if second == [] {
      assert first + second == first;
    } else {
      var shorter := second[..|second| - 1];
      RecipientsInOrder(store, first, shorter);
      assert (first + second)[..|first + second| - 1] == first + shorter;
    }
  }

  lemma {:induction false} AudienceInOrder(a: CampaignAudience, first: seq<Lead>, second: seq<Lead>)
    ensures Select(a, first + second) == Select(a, first) + Select(a, second)
    ensures |second| == 1 ==> |Select(a, second)| <= 1
  {
    if second == [] {
      assert first + second == first;
    } else {
      var shorter := second[..|second| - 1];
      AudienceInOrder(a, first, shorter);
      assert (first + second)[..|first + second| - 1] == first + shorter;
    }
  }

  datatype Fate = Excluded | NoEmail | Suppressed | Sent

  function FateOf(store: Store, lead: Lead): Fate {
    if lead.excludeFromSend then Excluded
    else if lead.email.None? || lead.email.value == "" then NoEmail
    else if lead.email.value in store.suppressions then Suppressed
    else Sent
  }

  function Count(store: Store, leads: seq<Lead>, fate: Fate): nat {
    if leads == [] then 0
    else Count(store, leads[..|leads| - 1], fate) + if FateOf(store, leads[|leads| - 1]) == fate then 1 else 0
  }

  // Every lead of the audience has one fate, and the sent ones are the recipients.
  lemma {:induction false} FatesAddUp(store: Store, leads: seq<Lead>)
    ensures Count(store, leads, Excluded) + Count(store, leads, NoEmail) + Count(store, leads, Suppressed)
            + Count(store, leads, Sent) == |leads|
    ensures Count(store, leads, Sent) == |Recipients(store, leads)|
  {
    if leads != [] {
      FatesAddUp(store, leads[..|leads| - 1]);
    }
  }

  // Dropping the unmailable leads first does not change who gets the mail.
  lemma {:induction false} MailableFirst(store: Store, leads: seq<Lead>)
    ensures Recipients(store, OnlyMailable(leads)) == Recipients(store, leads)
  {
    if leads != [] {
      var last, before := leads[|leads| - 1], leads[..|leads| - 1];
      MailableFirst(store, before);
      if Mailable(last) {
        var kept := OnlyMailable(before);
        assert (kept + [last])[..|kept|] == kept;
      } else {
        assert OnlyMailable(leads) == OnlyMailable(before);
      }
    }
  }

  // A listed audience reaches exactly the sendable leads that are listed and not struck out.
  lemma ListedAudienceExactly(store: Store, ids: set<string>, excludeIds: set<string>, lead: Lead)
    requires lead in store.leads && Sendable(store, lead)
    ensures var a := CampaignAudience(Listed(ids), excludeIds);
            lead.id in ids - excludeIds ==>
              Recipient(lead.id, lead.email.value) in Recipients(store, Select(a, store.leads))
    ensures forall a: CampaignAudience, x :: x in Recipients(store, Select(a, store.leads)) ==>
              x.id !in a.excludeIds && (a.selection.Listed? ==> x.id in a.selection.ids)
  {
  }

  // A filtered audience reaches exactly the sendable leads that are not struck out, have the value of every
  // filter that is given and, if tags are given, one of them.
  lemma FilteredAudienceExactly(store: Store, tier: string, wave: string, state: string, abGroup: string,
                                channel: string, tags: set<string>, excludeIds: set<string>, lead: Lead)
    ensures var a := CampaignAudience(Filtered(tier, wave, state, abGroup, channel, tags), excludeIds);
            lead in Select(a, store.leads) <==>
            && lead in store.leads && lead.id !in excludeIds
            && (tier != "" ==> lead.fitTier == tier) && (wave != "" ==> lead.waveKey == wave)
            && (state != "" ==> lead.state == state) && (abGroup != "" ==> lead.abGroup == abGroup)
            && (channel != "" ==> lead.channel == channel)
            && (tags != {} ==> exists tag :: tag in tags && tag in lead.tags)
  {
    if tag :| tag in tags && tag in lead.tags {
      assert tag in tags * lead.tags;
    }
    if tags * lead.tags != {} {
      var tag :| tag in tags * lead.tags;
    }
  }

  function NumberOf(leads: seq<Lead>, p: Lead -> bool): nat {
    if leads == [] then 0 else NumberOf(leads[..|leads| - 1], p) + if p(leads[|leads| - 1]) then 1 else 0
  }

  // What the counts count: leads marked not to be sent to; others without an address; of the rest those whose
  // address is suppressed, and those it is not.
  lemma {:induction false} CountsExactly(store: Store, leads: seq<Lead>)
    ensures Count(store, leads, Excluded) == NumberOf(leads, (l: Lead) => l.excludeFromSend)
    ensures Count(store, leads, NoEmail) ==
            NumberOf(leads, (l: Lead) => !l.excludeFromSend && l.email.GetOr("") == "")
    ensures Count(store, leads, Suppressed) ==
            NumberOf(leads, (l: Lead) => !l.excludeFromSend && l.email.GetOr("") != ""
                                         && l.email.GetOr("") in store.suppressions)
    ensures Count(store, leads, Sent) ==
            NumberOf(leads, (l: Lead) => !l.excludeFromSend && l.email.GetOr("") != ""
                                         && l.email.GetOr("") !in store.suppressions)
  {
    if leads != [] {
      CountsExactly(store, leads[..|leads| - 1]);
    }
  }

  // ----- The resolver -----

  datatype Preview = Preview(
    total: nat, sendable: nat, noEmail: nat, excluded: nat, suppressed: nat, noDraft: nat, sample: seq<string>)

  // The documents a lookup of one chunk of addresses returns.
  function Found(suppressions: seq<string>, chunk: seq<string>): (r: seq<string>)
    ensures forall e :: e in r <==> e in suppressions && e in chunk
  {
    if suppressions == [] then []
    else (if suppressions[0] in chunk then [suppressions[0]] else []) + Found(suppressions[1..], chunk)
  }

  // Looked up a thousand at a time, the suppressed addresses are those a single lookup would find.
  method LookupSuppressed(store: Store, emails: seq<string>) returns (suppressed: set<string>)
    ensures forall e :: e in suppressed <==> e in Found(store.suppressions, emails)
  {
    suppressed := {};
    var i := 0;
    while i < |emails|
      invariant 0 <= i
      invariant forall e :: e in suppressed <==>
                  e in store.suppressions && e in emails[..if i < |emails| then i else |emails|]
    {
      var stop := if i + LOOKUP_CHUNK < |emails| then i + LOOKUP_CHUNK else |emails|;
      var chunk := emails[i..stop];
      assert emails[..stop] == emails[..i] + chunk;
      var found := Found(store.suppressions, chunk);
      suppressed := suppressed + set e | e in found;
      i := i + LOOKUP_CHUNK;
    }
    assert emails[..|emails|] == emails;
  }

  function EmailsOf(leads: seq<Lead>): (r: seq<string>)
    ensures |r| == |leads| && forall i :: 0 <= i < |leads| ==> r[i] == leads[i].email.GetOr("")
  {
    if leads == [] then [] else [leads[0].email.GetOr("")] + EmailsOf(leads[1..])
  }

  lemma OneMoreRecipient(store: Store, leads: seq<Lead>, i: nat)
    requires i < |leads|
    ensures Recipients(store, leads[..i + 1]) ==
            Recipients(store, leads[..i])
            + if Sendable(store, leads[i]) then [Recipient(leads[i].id, leads[i].email.value)] else []
  {
    assert leads[..i + 1][..i] == leads[..i];
  }

  method ResolveSendable(store: Store, a: CampaignAudience) returns (sendable: seq<Recipient>)
    ensures sendable == Recipients(store, Select(a, store.leads))
  {
    var leads := OnlyMailable(Select(a, store.leads));
    MailableFirst(store, Select(a, store.leads));
    if leads == [] {
      return [];
    }
    var suppressed := LookupSuppressed(store, EmailsOf(leads));
    sendable := [];
    for i := 0 to |leads|
      invariant sendable == Recipients(store, leads[..i])
    {
      OneMoreRecipient(store, leads, i);
      if leads[i].email.value !in suppressed {
        sendable := sendable + [Recipient(leads[i].id, leads[i].email.value)];
      }
    }
    assert leads[..|leads|] == leads;
  }

  function IdsOf(rs: seq<Recipient>): (r: seq<string>)
    ensures |r| == |rs| && forall i :: 0 <= i < |r| ==> r[i] == rs[i].id
  {
    if rs == [] then [] else [rs[0].id] + IdsOf(rs[1..])
  }

  // A lead has a draft for one of the steps.
  predicate HasDraft(messages: seq<Message>, id: string, steps: seq<int>) {
    exists m :: m in messages && m.lead == id && m.step in steps && m.body != ""
  }

  function Undrafted(messages: seq<Message>, ids: seq<string>, steps: seq<int>): nat {
    if ids == [] then 0
    else Undrafted(messages, ids[..|ids| - 1], steps) + if HasDraft(messages, ids[|ids| - 1], steps) then 0 else 1
  }

  lemma {:induction false} UndraftedBounds(messages: seq<Message>, ids: seq<string>, steps: seq<int>)
    ensures Undrafted(messages, ids, steps) <= |ids|
    ensures Undrafted(messages, ids, steps) == 0 <==> forall i :: 0 <= i < |ids| ==> HasDraft(messages, ids[i], steps)
  {
    if ids != [] {
      UndraftedBounds(messages, ids[..|ids| - 1], steps);
    }
  }

  // One lead is counted exactly if no message with a text is to it and for one of the steps, and of several lists
  // the counts add up.
  lemma {:induction false} UndraftedExactly(messages: seq<Message>, a: seq<string>, b: seq<string>, id: string,
                                            steps: seq<int>)
    ensures Undrafted(messages, [id], steps) ==
            if exists m :: m in messages && m.lead == id && m.step in steps && m.body != "" then 0 else 1
    ensures Undrafted(messages, a + b, steps) == Undrafted(messages, a, steps) + Undrafted(messages, b, steps)
  {
    assert [id][..0] == [];
    if b == [] {
      assert a + b == a;
    } else {
      UndraftedExactly(messages, a, b[..|b| - 1], id, steps);
      assert (a + b)[..|a + b| - 1] == a + b[..|b| - 1];
    }
  }

  // The leads that could be mailed, and how many drop out before the suppression lookup.
  method SortOut(store: Store, leads: seq<Lead>) returns (mailable: seq<Lead>, excluded: nat, noEmail: nat)
    ensures mailable == OnlyMailable(leads)
    ensures excluded == Count(store, leads, Excluded) && noEmail == Count(store, leads, NoEmail)
  {
    mailable, excluded, noEmail := [], 0, 0;
    for i := 0 to |leads|
      invariant mailable == OnlyMailable(leads[..i])
      invariant excluded == Count(store, leads[..i], Excluded) && noEmail == Count(store, leads[..i], NoEmail)
    {
      assert leads[..i + 1][..i] == leads[..i];
      if leads[i].excludeFromSend {
        excluded := excluded + 1;
        continue;
      }
      if leads[i].email.None? || leads[i].email.value == "" {
        noEmail := noEmail + 1;
        continue;
      }
      mailable := mailable + [leads[i]];
    }
    assert leads[..|leads|] == leads;
  }

  lemma {:induction false} IdsOfMore(rs: seq<Recipient>, x: Recipient)
    ensures IdsOf(rs + [x]) == IdsOf(rs) + [x.id]
  {
    if rs != [] {
      IdsOfMore(rs[1..], x);
      assert (rs + [x])[1..] == rs[1..] + [x];
    }
  }

  // The sendable ids, given the suppressed addresses among the leads.
  method SendableIds(store: Store, leads: seq<Lead>, suppressedEmails: set<string>)
    returns (ids: seq<string>, suppressed: nat)
    requires forall l :: l in leads && Mailable(l) ==>
               (l.email.value in suppressedEmails <==> l.email.value in store.suppressions)
    ensures ids == IdsOf(Recipients(store, leads)) && suppressed == Count(store, leads, Suppressed)
  {
    ids, suppressed := [], 0;
    for i := 0 to |leads|
      invariant suppressed == Count(store, leads[..i], Suppressed)
      invariant ids == IdsOf(Recipients(store, leads[..i]))
    {
      assert leads[..i + 1][..i] == leads[..i] && leads[i] in leads;
      if !Mailable(leads[i]) {
        continue;
      }
      if leads[i].email.value in suppressedEmails {
        suppressed := suppressed + 1;
        continue;
      }
      IdsOfMore(Recipients(store, leads[..i]), Recipient(leads[i].id, leads[i].email.value));
      ids := ids + [leads[i].id];
    }
    assert leads[..|leads|] == leads;
  }

  method CountUndrafted(messages: seq<Message>, ids: seq<string>, steps: seq<int>) returns (n: nat)
    ensures n == Undrafted(messages, ids, steps)
  {
    n := 0;
    for i := 0 to |ids|
      invariant n == Undrafted(messages, ids[..i], steps)
    {
      assert ids[..i + 1][..i] == ids[..i];
      if !HasDraft(messages, ids[i], steps) {
        n := n + 1;
      }
    }
    assert ids[..|ids|] == ids;
  }

  lemma MailableIsLookedUp(store: Store, leads: seq<Lead>, l: Lead)
    requires l in leads && Mailable(l)
    ensures l.email.value in EmailsOf(OnlyMailable(leads))
  {
    var i :| 0 <= i < |OnlyMailable(leads)| && OnlyMailable(leads)[i] == l;
    assert EmailsOf(OnlyMailable(leads))[i] == l.email.value;
  }

  // The preview accounts for every lead of the audience, and what it calls sendable is what
  // ResolveSendable would send to.
  method PreviewAudience(store: Store, a: CampaignAudience, leadDrafts: bool, steps: seq<int>) returns (p: Preview)
    ensures var leads := Select(a, store.leads);
            && p.total == |leads| == p.excluded + p.noEmail + p.suppressed + p.sendable
            && p.excluded == Count(store, leads, Excluded) && p.noEmail == Count(store, leads, NoEmail)
            && p.suppressed == Count(store, leads, Suppressed)
            && p.sendable == |Recipients(store, leads)|
            && p.noDraft == (if leadDrafts && steps != []
                             then Undrafted(store.messages, IdsOf(Recipients(store, leads)), steps) else 0)
            && p.sample == SampleOf(OnlyMailable(leads))
  {
    var leads := Select(a, store.leads);
    var mailable, excluded, noEmail := SortOut(store, leads);
    var suppressedEmails := LookupSuppressed(store, EmailsOf(mailable));
    forall l | l in leads && Mailable(l)
      ensures l.email.value in suppressedEmails <==> l.email.value in store.suppressions
    {
      MailableIsLookedUp(store, leads, l);
    }
    var ids, suppressed := SendableIds(store, leads, suppressedEmails);
    FatesAddUp(store, leads);
    var noDraft := 0;
    if leadDrafts && steps != [] {
      noDraft := CountUndrafted(store.messages, ids, steps);
    }
    p := Preview(|leads|, |ids|, noEmail, excluded, suppressed, noDraft, SampleOf(mailable));
  }

  function SampleOf(mailable: seq<Lead>): (r: seq<string>)
    ensures |r| <= 5 && |r| <= |mailable| && (|r| == 5 || |r| == |mailable|)
    ensures forall i :: 0 <= i < |r| ==> r[i] == mailable[i].id
  {
    var n := if |mailable| <= SAMPLE_SIZE then |mailable| else SAMPLE_SIZE;
    seq(n, i requires 0 <= i < n => mailable[i].id)
  }
}
