/** What holds of the ledger and the disputes over every run of requests. */
module LedgerLaws {
  import opened Options
  import opened Sums
  import opened Ledger

  // ----- the freeze -----

  ghost predicate OneOpen(s: State) {
    forall i, j :: 0 <= i < j < |s.disputes| && s.disputes[i].project == s.disputes[j].project ==>
      s.disputes[i].status != Open || s.disputes[j].status != Open
  }

  lemma NextKeepsOneOpen(s: State, r: Request)
    requires OneOpen(s)
    ensures OneOpen(Next(s, r))
  {
  }

  /** No project ever has two open disputes. */
  lemma {:induction false} OneOpenAlways(s: State, requests: seq<Request>)
    requires Fresh(s)
    ensures OneOpen(Run(s, requests))
  {
    if requests != [] {
      OneOpenAlways(s, requests[..|requests| - 1]);
      NextKeepsOneOpen(Run(s, requests[..|requests| - 1]), requests[|requests| - 1]);
    }
  }

  lemma NextKeepsClosed(s: State, r: Request, d: nat)
    requires d < |s.disputes| && s.disputes[d].status != Open
    ensures d < |Next(s, r).disputes| && Next(s, r).disputes[d] == s.disputes[d]
  {
  }

  /** A closed dispute stays as it is, thread included. */
  lemma {:induction false} ClosedForGood(s: State, requests: seq<Request>, d: nat)
    requires d < |s.disputes| && s.disputes[d].status != Open
    ensures d < |Run(s, requests).disputes| && Run(s, requests).disputes[d] == s.disputes[d]
  {
    if requests != [] {
      ClosedForGood(s, requests[..|requests| - 1], d);
      NextKeepsClosed(Run(s, requests[..|requests| - 1]), requests[|requests| - 1], d);
    }
  }

  /** One request appends at most one ledger row; a payment row written while a
      dispute of its project is open comes from the release that closes it. */
  lemma PaymentsUnderFreeze(s: State, r: Request)
    requires OneOpen(s)
    ensures var t := Next(s, r);
      && s.entries <= t.entries && |t.entries| <= |s.entries| + 1
      && (|t.entries| > |s.entries| && t.entries[|s.entries|].Paid? ==>
            forall d :: 0 <= d < |s.disputes| && s.disputes[d].status == Open
                        && s.disputes[d].project == t.entries[|s.entries|].project ==>
              r.ActOn? && r.dispute == d && r.action == Release && t.disputes[d].status == Resolved)
  {
    var t := Next(s, r);
    if r.ActOn? {
      ActEntries(s, r.dispute, r.action, r.refund, r.notes);
    }
  }

  /** What Act appends. */
  lemma ActEntries(s: State, d: nat, action: Action, amount: Option<int>, notes: bool)
    ensures var t := Act(s, d, action, amount, notes);
      && s.entries <= t.entries && |t.entries| <= |s.entries| + 1
      && (|t.entries| > |s.entries| ==>
            && d < |s.disputes| && s.disputes[d].status == Open
            && t.entries[|s.entries|].project == s.disputes[d].project
            && t.disputes == s.disputes[d := s.disputes[d].(status := Resolved)]
            && (t.entries[|s.entries|].Paid? ==> action == Release))
  {
  }

  /** Freeze safety over whole runs: when a request writes a payment row while a
      dispute of the row's project is open, the request is the release of that
      very dispute, which is resolved from then on. */
  lemma FreezeSafety(s: State, first: seq<Request>, r: Request, more: seq<Request>, d: nat)
    requires Fresh(s)
    requires var before := Run(s, first);
      && d < |before.disputes| && before.disputes[d].status == Open
      && |Next(before, r).entries| > |before.entries|
      && Next(before, r).entries[|before.entries|].Paid?
      && Next(before, r).entries[|before.entries|].project == before.disputes[d].project
    ensures r.ActOn? && r.dispute == d && r.action == Release
    ensures var after := Run(s, first + [r] + more);
      d < |after.disputes| && after.disputes[d].status == Resolved
  {
    var before := Run(s, first);
    OneOpenAlways(s, first);
    PaymentsUnderFreeze(before, r);
    assert (first + [r])[..|first|] == first;
    RunSplits(s, first + [r], more);
    ClosedForGood(Next(before, r), more, d);
  }

  lemma {:induction false} RunSplits(s: State, first: seq<Request>, more: seq<Request>)
    ensures Run(s, first + more) == Run(Run(s, first), more)
  {
    if more == [] {
      assert first + more == first;
    } else {
      assert (first + more)[..|first + more| - 1] == first + more[..|more| - 1];
      RunSplits(s, first, more[..|more| - 1]);
    }
  }

  // ----- the money -----

  /** Each payment: paid at most once, never refunded beyond what was paid, and
      its mirror column equal to its reversals. */
  ghost predicate Balanced(s: State) {
    && (forall p: nat, key: Key :: 0 <= Sum(ReversedOn(p, key), s.entries) <= Sum(PaidOn(p, key), s.entries))
    && (forall key :: key in s.payments && s.payments[key].project.Some? ==>
          s.payments[key].refunded == Sum(ReversedOn(s.payments[key].project.value, key), s.entries))
  }

  ghost predicate PaidOnce(entries: seq<Entry>) {
    forall i, j :: 0 <= i < j < |entries| && entries[i].Paid? && entries[j].Paid? ==>
      entries[i].project != entries[j].project || entries[i].key != entries[j].key
  }

  /** No project's escrow is spent beyond its budget. */
  ghost predicate Covered(s: State) {
    forall p :: p in s.budgets ==> Sum(NetOf(p), s.entries) <= s.budgets[p]
  }

  /** No dispute refunds more than the amount recorded on it, and only a closed one refunds. */
  ghost predicate Capped(s: State) {
    forall d: nat ::
      && Sum(RefundedBy(d), s.entries) >= 0
      && (d >= |s.disputes| || s.disputes[d].status == Open ==> Sum(RefundedBy(d), s.entries) == 0)
      && (d < |s.disputes| && s.disputes[d].disputed.Some? && Sum(RefundedBy(d), s.entries) > 0 ==>
            Sum(RefundedBy(d), s.entries) <= s.disputes[d].disputed.value)
  }

  lemma AppendedSums(entries: seq<Entry>, e: Entry)
    ensures forall p: nat, key: Key ::
              Sum(PaidOn(p, key), entries + [e]) == Sum(PaidOn(p, key), entries) + PaidOn(p, key)(e)
    ensures forall p: nat, key: Key ::
              Sum(ReversedOn(p, key), entries + [e]) == Sum(ReversedOn(p, key), entries) + ReversedOn(p, key)(e)
    ensures forall p: nat :: Sum(NetOf(p), entries + [e]) == Sum(NetOf(p), entries) + NetOf(p)(e)
    ensures forall d: nat :: Sum(RefundedBy(d), entries + [e]) == Sum(RefundedBy(d), entries) + RefundedBy(d)(e)
  {
    forall p: nat, key: Key
      ensures Sum(PaidOn(p, key), entries + [e]) == Sum(PaidOn(p, key), entries) + PaidOn(p, key)(e)
      ensures Sum(ReversedOn(p, key), entries + [e]) == Sum(ReversedOn(p, key), entries) + ReversedOn(p, key)(e)
    {
      SumAppend(PaidOn(p, key), entries, e);
      SumAppend(ReversedOn(p, key), entries, e);
    }
    forall p: nat ensures Sum(NetOf(p), entries + [e]) == Sum(NetOf(p), entries) + NetOf(p)(e) {
      SumAppend(NetOf(p), entries, e);
    }
    forall d: nat ensures Sum(RefundedBy(d), entries + [e]) == Sum(RefundedBy(d), entries) + RefundedBy(d)(e) {
      SumAppend(RefundedBy(d), entries, e);
    }
  }

  ghost predicate Sound(s: State) {
    Balanced(s) && PaidOnce(s.entries) && Covered(s) && Capped(s)
  }

  /** Recording a payment, with or without the freeze check. */
  lemma RecordSound(s: State, project: nat, key: Key, amount: nat, checkFreeze: bool)
    requires Sound(s) && Record(s, project, key, amount, checkFreeze).Written?
    ensures Sound(s.(entries := Record(s, project, key, amount, checkFreeze).entries))
  {
    AppendedSums(s.entries, Paid(project, key, amount));
  }

  /** A change of a row's statuses, its mirror kept. */
  lemma RowSound(s: State, key: Key, payment: Payment)
    requires Sound(s) && key in s.payments
    requires payment.project == s.payments[key].project && payment.refunded == s.payments[key].refunded
    ensures Sound(s.(payments := s.payments[key := payment]))
  {
  }

  lemma DisputesSound(s: State, disputes: seq<Dispute>)
    requires Sound(s) && |disputes| >= |s.disputes|
    requires forall d :: 0 <= d < |s.disputes| ==>
      disputes[d].disputed == s.disputes[d].disputed && (disputes[d].status == Open ==> s.disputes[d].status == Open)
    ensures Sound(s.(disputes := disputes))
  {
  }

  lemma RefundSound(s: State, d: nat, amount: int)
    requires Sound(s) && d < |s.disputes| && s.disputes[d].status == Open && amount >= 1
    requires RefundRefusal(s, s.disputes[d], amount).None?
    ensures var t := CloseDispute(Refunded(s, d, amount), d, Resolved);
      Balanced(t) && PaidOnce(t.entries) && Covered(t) && Capped(t)
  {
    var key, project := s.disputes[d].payment.value, s.disputes[d].project;
    AppendedSums(s.entries, Reversal(project, key, d, -amount));
  }

  lemma ReleaseSound(s: State, d: nat)
    requires Sound(s) && d < |s.disputes| && ReleaseRefusal(s, s.disputes[d]).None?
    ensures Sound(Released(s, d)) && Released(s, d).disputes == s.disputes
  {
    var key, project := s.disputes[d].payment.value, s.disputes[d].project;
    var amount := ReleaseAmount(key, s.payments[key]);
    RecordSound(s, project, key, amount, false);
    RowSound(s.(entries := Record(s, project, key, amount, false).entries), key, MarkedPaid(key, s.payments[key]));
  }

  lemma ActSound(s: State, d: nat, action: Action, amount: Option<int>, notes: bool)
    requires Sound(s)
    ensures Sound(Act(s, d, action, amount, notes))
  {
    if ActReply(s, d, action, amount, notes) == Done && d < |s.disputes| {
      var status := if action == Dismiss then Dismissed else Resolved;
      if action == Refund {
        RefundSound(s, d, amount.value);
      } else if action == Release {
        ReleaseSound(s, d);
        DisputesSound(Released(s, d), s.disputes[d := s.disputes[d].(status := status)]);
      } else {
        DisputesSound(s, s.disputes[d := s.disputes[d].(status := status)]);
      }
    }
  }

  lemma PayRowSound(s: State, key: Key, amount: nat)
    requires Sound(s) && key in s.payments
    ensures Sound(PayRow(s, key, amount))
  {
    var payment := s.payments[key];
    RowSound(s, key, payment.(status := "paid"));
    if payment.project.Some? {
      var recorded := Record(s, payment.project.value, key, amount, true);
      if recorded.Written? {
        RecordSound(s, payment.project.value, key, amount, true);
        RowSound(s.(entries := recorded.entries), key, payment.(status := "paid"));
      }
    }
  }

  lemma RecordForSound(s: State, key: Key, amount: nat)
    requires Sound(s)
    ensures Sound(RecordFor(s, key, amount))
  {
    if key in s.payments && s.payments[key].project.Some?
       && Record(s, s.payments[key].project.value, key, amount, true).Written? {
      RecordSound(s, s.payments[key].project.value, key, amount, true);
    }
  }

  lemma RouteSound(s: State, key: Key, project: nat, allowed: bool)
    requires Sound(s)
    ensures Sound(UploadTransfer(s, key, project, allowed))
    ensures Sound(AcceptTransfer(s, key, project, allowed))
    ensures Sound(RejectTransfer(s, key, project, allowed))
  {
    if OnRoute(s, key, project) {
      var payment := s.payments[key];
      RowSound(s, key, payment.(settlement := Some("verifying"), hasProof := true));
      RowSound(s, key, payment.(status := "verifying", hasProof := true));
      RowSound(s, key, MarkedRejected(key, payment));
      var recorded := Record(s, project, key, ReleaseAmount(key, payment), true);
      if recorded.Written? {
        RecordSound(s, project, key, ReleaseAmount(key, payment), true);
        RowSound(s.(entries := recorded.entries), key, MarkedPaid(key, payment));
      }
    }
  }

  lemma RetentionSound(s: State, key: Key, amount: nat)
    requires Sound(s)
    ensures Sound(ReleaseRetention(s, key, amount))
  {
    if key in s.payments && s.payments[key].project.Some? {
      AppendedSums(s.entries, Retention(s.payments[key].project.value, key, amount));
    }
  }

  lemma DisputeRequestSound(s: State, r: Request)
    requires Sound(s) && (r.OpenOne? || r.Escalate? || r.ReplyTo? || r.WithdrawOne?)
    ensures Sound(Next(s, r))
  {
    DisputesSound(s, Next(s, r).disputes);
  }

  lemma VerifySound(s: State, id: nat)
    requires Sound(s)
    ensures Sound(VerifyOrder(s, id))
  {
    var key := Key(Material, id);
    if key in s.payments {
      PayRowSound(s, key, s.payments[key].price);
    }
  }

  lemma MarkPaidSound(s: State, id: nat)
    requires Sound(s)
    ensures Sound(MarkQuotePaid(s, id))
  {
    var key := Key(Quote, id);
    if key in s.payments {
      PayRowSound(s, key, s.payments[key].price + s.payments[key].shipping);
    }
  }

  lemma PaymentRequestSound(s: State, r: Request)
    requires Sound(s) && (r.VerifyOne? || r.MarkPaid?)
    ensures Sound(Next(s, r))
  {
    if r.VerifyOne? {
      VerifySound(s, r.order);
    } else {
      MarkPaidSound(s, r.quote);
    }
  }

  lemma RouteRequestSound(s: State, r: Request)
    requires Sound(s) && (r.Upload? || r.Accept? || r.Reject?)
    ensures Sound(Next(s, r))
  {
    RouteSound(s, r.key, r.project, r.allowed);
  }

  lemma RosterRequestSound(s: State, r: Request)
    requires Sound(s) && (r.Add? || r.Remove?)
    ensures Sound(Next(s, r))
  {
  }

  lemma NextSound(s: State, r: Request)
    requires Sound(s)
    ensures Sound(Next(s, r))
  {
    if r.ActOn? {
      ActSound(s, r.dispute, r.action, r.refund, r.notes);
    } else if r.RecordOne? {
      RecordForSound(s, r.key, r.amount);
    } else if r.VerifyOne? || r.MarkPaid? {
      PaymentRequestSound(s, r);
    } else if r.Retain? {
      RetentionSound(s, r.key, r.amount);
    } else if r.Upload? || r.Accept? || r.Reject? {
      RouteRequestSound(s, r);
    } else if r.Add? || r.Remove? {
      RosterRequestSound(s, r);
    } else {
      DisputeRequestSound(s, r);
    }
  }

  /** Over any run: every payment is charged at most once; its reversals lie
      between nothing and what was paid and equal its mirror column; no dispute
      refunds beyond its recorded amount; no escrow is overdrawn. */
  lemma {:induction false} MoneyConserved(s: State, requests: seq<Request>)
    requires Fresh(s)
    ensures Sound(Run(s, requests))
  {
    if requests != [] {
      MoneyConserved(s, requests[..|requests| - 1]);
      NextSound(Run(s, requests[..|requests| - 1]), requests[|requests| - 1]);
    }
  }

  /** The refund branch turns a settled payment into `refunded` exactly when the
      reversals now cover all that was paid. */
  lemma RefundMarksExactly(s: State, d: nat, amount: int)
    requires Sound(s) && d < |s.disputes| && amount >= 1
    requires RefundRefusal(s, s.disputes[d], amount).None?
    ensures var t, key, p := Refunded(s, d, amount), s.disputes[d].payment.value, s.disputes[d].project;
      && key in s.payments && key in t.payments
      && (Settlement(key, t.payments[key]) != Settlement(key, s.payments[key]) <==>
           Settlement(key, s.payments[key]) == "paid" &&
           Sum(ReversedOn(p, key), t.entries) == Sum(PaidOn(p, key), t.entries))
      && (Settlement(key, t.payments[key]) != Settlement(key, s.payments[key]) ==>
            Settlement(key, t.payments[key]) == "refunded")
  {
    var key, project := s.disputes[d].payment.value, s.disputes[d].project;
    AppendedSums(s.entries, Reversal(project, key, d, -amount));
  }

  // ----- what a material order costs -----

  /** verifyOrderPayment would take this order's payment. */
  predicate Verifiable(s: State, key: Key) {
    && key.kind == Material && key in s.payments && s.payments[key].hasProof
    && s.payments[key].status !in ["paid", "shipping", "delivered", "completed", "refunded", "cancelled"]
  }

  /** What the seller's verification writes once the freeze is over. */
  lemma VerificationCharges(s: State, key: Key, project: nat)
    requires Verifiable(s, key) && s.payments[key].project == Some(project) && !Frozen(s, project)
    requires !HasPaid(s.entries, project, key) && project in s.budgets
    requires s.budgets[project] - Sum(NetOf(project), s.entries) >= s.payments[key].price
    ensures VerifyOrder(s, key.id).entries ==
            s.entries + (if s.payments[key].price == 0 then [] else [Paid(project, key, s.payments[key].price)])
  {
    assert key == Key(Material, key.id);
  }

  /** The release of a dispute and the seller's verification, were the dispute
      dismissed instead, write the same ledger exactly when the order ships free
      and costs something: release adds the shipping that the total already
      contains. */
  lemma ReleaseMatchesVerifyIff(s: State, d: nat)
    requires OneOpen(s) && d < |s.disputes| && s.disputes[d].status == Open
    requires ReleaseRefusal(s, s.disputes[d]).None? && Verifiable(s, s.disputes[d].payment.value)
    requires !HasPaid(s.entries, s.disputes[d].project, s.disputes[d].payment.value)
    ensures var key := s.disputes[d].payment.value;
      Released(s, d).entries == VerifyOrder(CloseDispute(s, d, Dismissed), key.id).entries
      <==> s.payments[key].shipping == 0 && s.payments[key].price > 0
  {
    var key, project := s.disputes[d].payment.value, s.disputes[d].project;
    var dismissed := CloseDispute(s, d, Dismissed);
    assert !Frozen(dismissed, project);
    VerificationCharges(dismissed, key, project);
    var released := Released(s, d).entries;
    assert released == s.entries + [Paid(project, key, ReleaseAmount(key, s.payments[key]))];
    assert released[|s.entries|] == Paid(project, key, ReleaseAmount(key, s.payments[key]));
    if s.payments[key].price > 0 {
      var verified := s.entries + [Paid(project, key, s.payments[key].price)];
      assert verified[|s.entries|] == Paid(project, key, s.payments[key].price);
    }
  }

  /** The project route charges what a release charges, shipping twice included. */
  lemma AcceptMatchesRelease(s: State, d: nat)
    requires OneOpen(s) && d < |s.disputes| && s.disputes[d].status == Open
    requires ReleaseRefusal(s, s.disputes[d]).None?
    requires AwaitsVerdict(CloseDispute(s, d, Dismissed), s.disputes[d].payment.value, s.disputes[d].project, true)
    ensures var accepted := AcceptTransfer(CloseDispute(s, d, Dismissed), s.disputes[d].payment.value,
                                           s.disputes[d].project, true);
      accepted.entries == Released(s, d).entries && accepted.payments == Released(s, d).payments
  {
  }

  /** An order of 30 with 5 of them for shipping, under dispute and with a receipt
      on file: release charges 35, verification 30. */
  lemma ShippingChargedTwice()
    ensures var key, order := Key(Material, 0), Payment(Some(0), "pending", None, 30, 5, 0, true);
      var s := State([Dispute(0, Open, 1, Some(key), None, [])], [], map[key := order], map[0 := 100]);
      && ReleaseRefusal(s, s.disputes[0]).None?
      && Released(s, 0).entries == [Paid(0, key, 35)]
      && VerifyOrder(CloseDispute(s, 0, Dismissed), 0).entries == [Paid(0, key, 30)]
  {
    var key, order := Key(Material, 0), Payment(Some(0), "pending", None, 30, 5, 0, true);
    var s := State([Dispute(0, Open, 1, Some(key), None, [])], [], map[key := order], map[0 := 100]);
    assert ReleaseRefusal(s, s.disputes[0]).None?;
    assert Verifiable(s, key) && OneOpen(s) && !HasPaid(s.entries, 0, key);
    var dismissed := CloseDispute(s, 0, Dismissed);
    assert !Frozen(dismissed, 0) && dismissed.budgets[0] - Sum(NetOf(0), dismissed.entries) == 100;
    VerificationCharges(dismissed, key, 0);
  }
}
