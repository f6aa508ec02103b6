/**
 * The campaign manager: the list of campaigns, the creation form and its
 * validation, the running/paused toggle and the statistics shown above the
 * list. Delivery counters are set once, at creation or in the seeded list.
 */
module CampaignManager {
  import opened Optional

  datatype Status = Draft | Scheduled | Running | Completed | Paused

  /** Counters are JavaScript numbers; the model keeps them as unbounded integers. */
  datatype Campaign = Campaign(
    id: string,
    name: string,
    templateId: string,
    templateName: string,
    status: Status,
    totalContacts: int,
    sentCount: int,
    successCount: int,
    failedCount: int,
    scheduledDate: Option<string>,
    createdAt: string)

  /** The values typed into the "Create New Campaign" form. */
  datatype CampaignForm = CampaignForm(name: string, templateId: string, scheduledDate: string)

  function EmptyForm(): CampaignForm {
    CampaignForm("", "", "")
  }

  /** The name every created campaign shows, whatever template was chosen. */
  const SampleTemplateName: string := "Sample Template"

  /** Counters that describe a possible delivery: no more sent than targeted, no more outcomes than sent. */
  predicate CountersConsistent(c: Campaign) {
    && 0 <= c.successCount
    && 0 <= c.failedCount
    && c.successCount + c.failedCount <= c.sentCount
    && c.sentCount <= c.totalContacts
  }

  predicate AllConsistent(cs: seq<Campaign>) {
    forall i :: 0 <= i < |cs| ==> CountersConsistent(cs[i])
  }

  /** The two campaigns the list starts with. */
  function SeededCampaigns(): seq<Campaign> {
    [ Campaign("campaign-1", "Product Launch Announcement", "template-1", "Launch Template",
               Completed, 1250, 1250, 1180, 70, None, "2024-01-10"),
      Campaign("campaign-2", "Holiday Promotion", "template-2", "Promo Template",
               Running, 800, 450, 420, 30, None, "2024-01-12") ]
  }

  /** The seeded list is consistent, has one running campaign and 1700 messages sent. */
  lemma SeededStatistics()
    ensures AllConsistent(SeededCampaigns())
    ensures |SeededCampaigns()| == 2
    ensures ActiveCount(SeededCampaigns()) == 1
    ensures TotalMessages(SeededCampaigns()) == 1700
  {
    var cs := SeededCampaigns();
    assert cs[1..][1..] == [];
  }

  // ---------------------------------------------------------------------------
  // Creation

  /** The form can be submitted: it names the campaign and picks a template. */
  predicate Submittable(f: CampaignForm) {
    f.name != "" && f.templateId != ""
  }

  /**
   * The campaign `createCampaign` builds from the form; `freshId` and `today`
   * stand for the time-based id and the ISO date of creation.
   */
  function NewCampaign(f: CampaignForm, freshId: string, today: string): (c: Campaign)
    ensures c.status == Scheduled <==> f.scheduledDate != ""
    ensures c.status == Draft <==> f.scheduledDate == ""
    ensures c.totalContacts == 0 && c.sentCount == 0 && c.successCount == 0 && c.failedCount == 0
    ensures CountersConsistent(c) && Pending(c) == 0
    ensures c.id == freshId && c.name == f.name && c.templateId == f.templateId
    ensures c.templateName == SampleTemplateName
    ensures c.scheduledDate == Some(f.scheduledDate) && c.createdAt == today
  {
    Campaign(freshId, f.name, f.templateId, SampleTemplateName,
             if f.scheduledDate != "" then Scheduled else Draft,
             0, 0, 0, 0, Some(f.scheduledDate), today)
  }

  // ---------------------------------------------------------------------------
  // Toggling

  /** The status the toggle button moves to. */
  function Toggled(s: Status): (r: Status)
    ensures r == Paused <==> s == Running
    ensures r == Running <==> s != Running
    ensures r != s
  {
    if s == Running then Paused else Running
  }

  /** Toggling twice gives the status back exactly when it was running or paused. */
  lemma ToggledTwice(s: Status)
    ensures Toggled(Toggled(s)) == s <==> s == Running || s == Paused
  {
  }

  /** `toggleCampaign(id)`: every campaign with that id has its status toggled; nothing else changes. */
  function ToggleById(cs: seq<Campaign>, id: string): (r: seq<Campaign>)
    ensures |r| == |cs|
    ensures forall i :: 0 <= i < |cs| && cs[i].id != id ==> r[i] == cs[i]
    ensures forall i :: 0 <= i < |cs| && cs[i].id == id ==> r[i] == cs[i].(status := Toggled(cs[i].status))
  {
    if cs == [] then []
    else
      var c := cs[0];
      var t := if c.id == id then c.(status := Toggled(c.status)) else c;
      [t] + ToggleById(cs[1..], id)
  }

  /** An id no campaign carries leaves the list unchanged. */
  lemma ToggleUnknownId(cs: seq<Campaign>, id: string)
    requires forall i :: 0 <= i < |cs| ==> cs[i].id != id
    ensures ToggleById(cs, id) == cs
  {
  }

  /** Toggling the same id twice restores the list when those campaigns are running or paused. */
  lemma ToggleTwice(cs: seq<Campaign>, id: string)
    requires forall i :: 0 <= i < |cs| && cs[i].id == id ==> cs[i].status == Running || cs[i].status == Paused
    ensures ToggleById(ToggleById(cs, id), id) == cs
  {
    var r := ToggleById(ToggleById(cs, id), id);
    forall i | 0 <= i < |cs| ensures r[i] == cs[i] {
      if cs[i].id == id {
        ToggledTwice(cs[i].status);
      }
    }
  }

  /** Toggling keeps every counter, so consistent counters stay consistent. */
  lemma ToggleKeepsCounters(cs: seq<Campaign>, id: string)
    requires AllConsistent(cs)
    ensures AllConsistent(ToggleById(cs, id))
    ensures forall i :: 0 <= i < |cs| ==> Pending(ToggleById(cs, id)[i]) == Pending(cs[i])
  {
  }

  // ---------------------------------------------------------------------------
  // Statistics

  /** "Active Campaigns": the number of running campaigns. */
  function ActiveCount(cs: seq<Campaign>): (n: nat)
    ensures n <= |cs|
  {
    if cs == [] then 0 else (if cs[0].status == Running then 1 else 0) + ActiveCount(cs[1..])
  }

  /** "Total Messages": the sum of `sentCount` over the list. */
  function TotalMessages(cs: seq<Campaign>): (n: int)
    ensures AllConsistent(cs) ==> 0 <= n
  {
    if cs == [] then 0 else cs[0].sentCount + TotalMessages(cs[1..])
  }

  /** The "Pending" figure of one campaign. */
  function Pending(c: Campaign): (p: int)
    ensures CountersConsistent(c) ==> 0 <= p <= c.totalContacts
  {
    c.totalContacts - c.sentCount
  }

  /** The number of campaigns carrying `id`, and of those that are running. */
  function WithId(cs: seq<Campaign>, id: string): (n: nat)
    ensures n <= |cs|
  {
    if cs == [] then 0 else (if cs[0].id == id then 1 else 0) + WithId(cs[1..], id)
  }

  function RunningWithId(cs: seq<Campaign>, id: string): (n: nat)
    ensures n <= WithId(cs, id) && n <= ActiveCount(cs)
  {
    if cs == [] then 0
    else (if cs[0].id == id && cs[0].status == Running then 1 else 0) + RunningWithId(cs[1..], id)
  }

  /** Statistics of a list with one more campaign at the end. */
  lemma {:induction false} StatisticsAppend(cs: seq<Campaign>, c: Campaign)
    ensures ActiveCount(cs + [c]) == ActiveCount(cs) + (if c.status == Running then 1 else 0)
    ensures TotalMessages(cs + [c]) == TotalMessages(cs) + c.sentCount
    decreases |cs|
  {
    if cs != [] {
      assert (cs + [c])[1..] == cs[1..] + [c];
      StatisticsAppend(cs[1..], c);
    }
  }

  /** A created campaign adds one to the count and nothing to "Active Campaigns" or "Total Messages". */
  lemma CreateKeepsStatistics(cs: seq<Campaign>, f: CampaignForm, freshId: string, today: string)
    ensures var cs' := cs + [NewCampaign(f, freshId, today)];
      && |cs'| == |cs| + 1
      && ActiveCount(cs') == ActiveCount(cs)
      && TotalMessages(cs') == TotalMessages(cs)
  {
    StatisticsAppend(cs, NewCampaign(f, freshId, today));
  }

  /**
   * Toggling an id stops the running campaigns with that id and starts all
   * the others with it; "Total Messages" does not move.
   */
  lemma {:induction false} ToggleStatistics(cs: seq<Campaign>, id: string)
    ensures ActiveCount(ToggleById(cs, id)) == ActiveCount(cs) + WithId(cs, id) - 2 * RunningWithId(cs, id)
    ensures TotalMessages(ToggleById(cs, id)) == TotalMessages(cs)
    decreases |cs|
  {
    if cs != [] {
      ToggleStatistics(cs[1..], id);
      assert ToggleById(cs, id)[1..] == ToggleById(cs[1..], id);
    }
  }

  // ---------------------------------------------------------------------------
  // The component state

  class CampaignLedger {
    var campaigns: seq<Campaign>
    var form: CampaignForm

    /** Every campaign in the list has consistent counters. */
    predicate Valid()
      reads this
    {
      AllConsistent(campaigns)
    }

    constructor ()
      ensures campaigns == SeededCampaigns() && form == EmptyForm()
      ensures Valid()
    {
      campaigns := SeededCampaigns();
      form := EmptyForm();
      SeededStatistics();
    }

    method EditName(name: string)
      modifies this
      ensures form == old(form).(name := name) && campaigns == old(campaigns)
    {
      form := form.(name := name);
    }

    method SelectTemplate(templateId: string)
      modifies this
      ensures form == old(form).(templateId := templateId) && campaigns == old(campaigns)
    {
      form := form.(templateId := templateId);
    }

    method EditSchedule(scheduledDate: string)
      modifies this
      ensures form == old(form).(scheduledDate := scheduledDate) && campaigns == old(campaigns)
    {
      form := form.(scheduledDate := scheduledDate);
    }

    /** `createCampaign`: refused without a name or a template; otherwise appends and clears the form. */
    method Create(freshId: string, today: string) returns (created: bool)
      requires Valid()
      modifies this
      ensures Valid()
      ensures created <==> Submittable(old(form))
      ensures !created ==> campaigns == old(campaigns) && form == old(form)
      ensures created ==> campaigns == old(campaigns) + [NewCampaign(old(form), freshId, today)]
      ensures created ==> form == EmptyForm()
    {
      if form.name == "" || form.templateId == "" {
        return false;
      }
      var campaign := NewCampaign(form, freshId, today);
      campaigns := campaigns + [campaign];
      form := EmptyForm();
      created := true;
    }

    /** `toggleCampaign`. */
    method Toggle(id: string)
      requires Valid()
      modifies this
      ensures Valid()
      ensures campaigns == ToggleById(old(campaigns), id) && form == old(form)
    {
      ToggleKeepsCounters(campaigns, id);
      campaigns := ToggleById(campaigns, id);
    }
  }
}
