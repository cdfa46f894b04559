/** Planning link and unlink transactions: what is on chain against what is configured on disk. */
module LinkPlanner {
  import opened Basics
  import opened VotingKeys
  import opened AccountChain

  datatype LinkParams = LinkParams(unlink: bool, ready: bool, removeOldLinked: Option<bool>)

  /** One answer for each place where an unlink may have to be confirmed: the remote key, the VRF
      key, the i-th linked voting key when it expired, the key in the way of the i-th file. */
  datatype Answers = Answers(remote: bool, vrf: bool, expired: nat -> bool, overlapping: nat -> bool)

  function ConfirmUnlink(params: LinkParams, prompted: bool): bool {
    match params.removeOldLinked
    case None => params.ready || prompted
    case Some(remove) => remove
  }

  function Decide(params: LinkParams, prompts: Answers): Answers {
    Answers(ConfirmUnlink(params, prompts.remote),
            ConfirmUnlink(params, prompts.vrf),
            (i: nat) => ConfirmUnlink(params, prompts.expired(i)),
            (i: nat) => ConfirmUnlink(params, prompts.overlapping(i)))
  }

  ghost predicate AllConfirmed(answers: Answers) {
    && answers.remote
    && answers.vrf
    && (forall i :: answers.expired(i))
    && (forall i :: answers.overlapping(i))
  }

  /** The planned transactions, and the voting keys expected to be linked after them. */
  datatype VotingPlan = VotingPlan(transactions: seq<Transaction>, remaining: seq<VotingKey>)

  /** The first loop after `n` of its rounds. */
  function UnlinkExpired(linked: seq<VotingKey>, n: nat, epoch: int, confirm: nat -> bool): VotingPlan
    requires n <= |linked|
  {
    if n == 0 then VotingPlan([], [])
    else
      var p, key := UnlinkExpired(linked, n - 1, epoch, confirm), linked[n - 1];
      if key.endEpoch < epoch && confirm(n - 1)
      then p.(transactions := p.transactions + [VotingLink(key, Unlink)])
      else p.(remaining := p.remaining + [key])
  }

  function Active(files: seq<VotingKey>, epoch: int): seq<VotingKey> {
    if |files| == 0 then []
    else if files[0].endEpoch >= epoch then [files[0]] + Active(files[1..], epoch)
    else Active(files[1..], epoch)
  }

  function LinkStep(p: VotingPlan, file: VotingKey, confirmed: bool): VotingPlan {
    var i := FindOverlap(file, p.remaining);
    if i == |p.remaining| then
      AddLink(p, file)
    else if SameAccount(p.remaining[i], file) || !confirmed then
      p
    else
      AddLink(VotingPlan(p.transactions + [VotingLink(p.remaining[i], Unlink)], RemoveAt(p.remaining, i)), file)
  }

  function AddLink(p: VotingPlan, file: VotingKey): VotingPlan {
    if |p.remaining| < MAX_VOTING_KEYS
    then VotingPlan(p.transactions + [VotingLink(file, Link)], p.remaining + [file])
    else p
  }

  /** The second loop after `n` of its rounds. */
  function LinkFiles(p: VotingPlan, files: seq<VotingKey>, n: nat, confirm: nat -> bool): VotingPlan
    requires n <= |files|
  {
    if n == 0 then p else LinkStep(LinkFiles(p, files, n - 1, confirm), files[n - 1], confirm(n - 1))
  }

  function LinkPlan(linked: seq<VotingKey>, files: seq<VotingKey>, epoch: int, answers: Answers): VotingPlan {
    var kept, active := UnlinkExpired(linked, |linked|, epoch, answers.expired), Active(files, epoch);
    LinkFiles(kept, active, |active|, answers.overlapping)
  }

  function UnlinkStep(p: VotingPlan, file: VotingKey, confirmed: bool): VotingPlan {
    var i := FindOverlap(file, p.remaining);
    if i < |p.remaining| && SameAccount(p.remaining[i], file) && confirmed then
      VotingPlan(p.transactions + [VotingLink(p.remaining[i], Unlink)], RemoveAt(p.remaining, i))
    else p
  }

  /** The loop of the unlink command after `n` of its rounds. */
  function UnlinkFiles(linked: seq<VotingKey>, files: seq<VotingKey>, n: nat, confirm: nat -> bool): VotingPlan
    requires n <= |files|
  {
    if n == 0 then VotingPlan([], linked)
    else UnlinkStep(UnlinkFiles(linked, files, n - 1, confirm), files[n - 1], confirm(n - 1))
  }

  function UnlinkPlan(linked: seq<VotingKey>, files: seq<VotingKey>, answers: Answers): VotingPlan {
    UnlinkFiles(linked, files, |files|, answers.overlapping)
  }

  /** The plan for a single-key slot (remote or VRF). */
  function SlotPlan(unlink: bool, linked: Option<string>, configured: string, confirmed: bool,
                    tx: (string, LinkAction) -> Transaction): seq<Transaction> {
    match linked
    case None => if unlink then [] else [tx(configured, Link)]
    case Some(current) =>
      if Upper(configured) == Upper(current) then
        if unlink then [tx(configured, Unlink)] else []
      else if !confirmed then []
      else if unlink then [tx(current, Unlink)]
      else [tx(current, Unlink), tx(configured, Link)]
  }

  function RemoteTransaction(publicKey: string, action: LinkAction): Transaction {
    RemoteLink(publicKey, action)
  }

  function VrfTransaction(publicKey: string, action: LinkAction): Transaction {
    VrfLink(publicKey, action)
  }

  datatype NodeKeys = NodeKeys(remote: Option<string>, vrf: Option<string>, voting: seq<VotingKey>)

  function RemotePlan(unlink: bool, current: NodeKeys, node: NodeKeys, confirmed: bool): seq<Transaction> {
    if node.remote.None? then []
    else SlotPlan(unlink, current.remote, node.remote.value, confirmed, RemoteTransaction)
  }

  function VrfPlan(unlink: bool, current: NodeKeys, node: NodeKeys, confirmed: bool): seq<Transaction> {
    if node.vrf.None? then []
    else SlotPlan(unlink, current.vrf, node.vrf.value, confirmed, VrfTransaction)
  }

  function VotingKeysPlan(unlink: bool, current: NodeKeys, node: NodeKeys, epoch: int, answers: Answers): VotingPlan {
    if unlink then UnlinkPlan(current.voting, node.voting, answers)
    else LinkPlan(current.voting, node.voting, epoch, answers)
  }

  function GenericPlan(unlink: bool, current: NodeKeys, node: NodeKeys, epoch: int,
                       answers: Answers): seq<Transaction> {
    RemotePlan(unlink, current, node, answers.remote)
    + VrfPlan(unlink, current, node, answers.vrf)
    + VotingKeysPlan(unlink, current, node, epoch, answers).transactions
  }

  /** The links planned before the first unlink: the ones pushed while the working list is still the
      caller's own array. */
  function LeadingLinks(txs: seq<Transaction>): (r: seq<VotingKey>)
    ensures |r| <= |txs|
  {
    if |txs| != 0 && txs[0].VotingLink? && txs[0].action == Link
    then [txs[0].key] + LeadingLinks(txs[1..])
    else []
  }

  /** They are the keys of the transactions in front, as long as these link voting keys. */
  lemma {:induction false} LeadingLinksAre(txs: seq<Transaction>)
    ensures var keys := LeadingLinks(txs);
      && (forall i | 0 <= i < |keys| :: txs[i] == VotingLink(keys[i], Link))
      && (|keys| < |txs| ==> !(txs[|keys|].VotingLink? && txs[|keys|].action == Link))
  {
    if |txs| != 0 && txs[0].VotingLink? && txs[0].action == Link {
      LeadingLinksAre(txs[1..]);
    }
  }

  lemma {:induction false} LeadingLinksSnoc(txs: seq<Transaction>, t: Transaction)
    ensures LeadingLinks(txs + [t])
         == if t.VotingLink? && t.action == Link && |LeadingLinks(txs)| == |txs|
            then LeadingLinks(txs) + [t.key] else LeadingLinks(txs)
  {
    if |txs| != 0 {
      assert (txs + [t])[1..] == txs[1..] + [t];
      LeadingLinksSnoc(txs[1..], t);
    }
  }

  /** The working list of the first loop: the keys kept so far, then the keys not looked at yet. */
  ghost function Working(kept: seq<VotingKey>, linked: seq<VotingKey>, i: nat): seq<VotingKey>
    requires i <= |linked|
  {
    kept + linked[i..]
  }

  lemma WorkingNext(kept: seq<VotingKey>, linked: seq<VotingKey>, i: nat)
    requires i < |linked|
    ensures |kept| < |Working(kept, linked, i)| && Working(kept, linked, i)[|kept|] == linked[i]
    ensures RemoveAt(Working(kept, linked, i), |kept|) == Working(kept, linked, i + 1)
    ensures Working(kept, linked, i) == Working(kept + [linked[i]], linked, i + 1)
  {
  }

  lemma WorkingEnds(kept: seq<VotingKey>, linked: seq<VotingKey>)
    ensures Working([], linked, 0) == linked
    ensures Working(kept, linked, |linked|) == kept
  {
  }

  /** A JavaScript array of key accounts, which two variables may share. */
  class KeyArray {
    var items: seq<VotingKey>

    constructor (items: seq<VotingKey>)
      ensures this.items == items
    {
      this.items := items;
    }
  }

  /** The working list is the caller's array exactly while only links were planned, and that array
      holds its first contents followed by the links planned up to the first unlink. */
  ghost predicate Sharing(linked: KeyArray, current: KeyArray, before: seq<VotingKey>, planned: seq<Transaction>)
    reads linked
  {
    && (current == linked <==> |LeadingLinks(planned)| == |planned|)
    && linked.items == before + LeadingLinks(planned)
  }

  class LinkTransactionGenericFactory {
    const params: LinkParams

    constructor (params: LinkParams)
      ensures this.params == params
    {
      this.params := params;
    }

    /** Plans the voting links. The working list starts as the caller's array itself, so the links
        planned before the first unlink also end up in that array. */
    method AddVotingKeyLinkTransactions(linked: KeyArray, files: seq<VotingKey>, epoch: int, prompts: Answers)
      returns (transactions: seq<Transaction>)
      modifies linked
      ensures transactions == LinkPlan(old(linked.items), files, epoch, Decide(params, prompts)).transactions
      ensures linked.items == old(linked.items) + LeadingLinks(transactions)
    {
      ghost var before := linked.items;
      var planned, remaining := AddExpiredUnlinks(linked, epoch, prompts);
      transactions := AddFiles(planned, linked, remaining, before, Active(files, epoch), prompts);
    }

    /** The second loop: every active file in turn. */
    method AddFiles(planned: seq<Transaction>, linked: KeyArray, current: KeyArray, ghost before: seq<VotingKey>,
                    active: seq<VotingKey>, prompts: Answers)
      returns (transactions: seq<Transaction>)
      requires Sharing(linked, current, before, planned)
      modifies linked, current
      ensures transactions
           == LinkFiles(VotingPlan(planned, old(current.items)), active, |active|,
                        Decide(params, prompts).overlapping).transactions
      ensures linked.items == before + LeadingLinks(transactions)
    {
      ghost var start := VotingPlan(planned, current.items);
      ghost var confirm := Decide(params, prompts).overlapping;
      var remaining := current;
      transactions := planned;
      for i := 0 to |active|
        invariant VotingPlan(transactions, remaining.items) == LinkFiles(start, active, i, confirm)
        invariant remaining == current || fresh(remaining)
        invariant Sharing(linked, remaining, before, transactions)
      {
        transactions, remaining := AddFile(transactions, linked, remaining, before, active[i], prompts.overlapping(i));
      }
    }

    /** One round of the second loop: an active file against the keys still linked. A key in the way
        is filtered into a new array; the file is pushed onto whichever array is current. */
    method AddFile(planned: seq<Transaction>, linked: KeyArray, current: KeyArray, ghost before: seq<VotingKey>,
                   file: VotingKey, prompted: bool)
      returns (transactions: seq<Transaction>, remaining: KeyArray)
      requires Sharing(linked, current, before, planned)
      modifies current
      ensures VotingPlan(transactions, remaining.items)
           == LinkStep(VotingPlan(planned, old(current.items)), file, ConfirmUnlink(params, prompted))
      ensures remaining == current || fresh(remaining)
      ensures Sharing(linked, remaining, before, transactions)
    {
      transactions, remaining := planned, current;
      var found := FindOverlap(file, remaining.items);
      var isLinked := found < |remaining.items|;
      var isSame := isLinked && SameAccount(remaining.items[found], file);
      var addTransaction := !isSame;
      if isLinked && !isSame {
        if ConfirmUnlink(params, prompted) {
          LeadingLinksSnoc(transactions, VotingLink(remaining.items[found], Unlink));
          transactions := transactions + [VotingLink(remaining.items[found], Unlink)];
          remaining := new KeyArray(RemoveAt(remaining.items, found));
        } else {
          addTransaction := false;
        }
      }
      if |remaining.items| < MAX_VOTING_KEYS && addTransaction {
        LeadingLinksSnoc(transactions, VotingLink(file, Link));
        transactions := transactions + [VotingLink(file, Link)];
        remaining.items := remaining.items + [file];
      }
    }

    /** The first loop: offers to unlink every linked key that has expired. */
    method AddExpiredUnlinks(linked: KeyArray, epoch: int, prompts: Answers)
      returns (transactions: seq<Transaction>, remaining: KeyArray)
      ensures VotingPlan(transactions, remaining.items)
           == UnlinkExpired(linked.items, |linked.items|, epoch, Decide(params, prompts).expired)
      ensures if transactions == [] then remaining == linked else fresh(remaining)
      ensures LeadingLinks(transactions) == []
    {
      hide Working, RemoveAt;
      ghost var confirm := Decide(params, prompts).expired;
      WorkingEnds([], linked.items);
      transactions := [];
      remaining := linked;
      var i, kept := 0, 0;
      while i < |linked.items|
        invariant 0 <= i <= |linked.items|
        invariant var p := UnlinkExpired(linked.items, i, epoch, confirm);
          transactions == p.transactions && remaining.items == Working(p.remaining, linked.items, i)
              && kept == |p.remaining|
        invariant if transactions == [] then remaining == linked else fresh(remaining)
        invariant LeadingLinks(transactions) == []
      {
        var already := linked.items[i];
        WorkingNext(UnlinkExpired(linked.items, i, epoch, confirm).remaining, linked.items, i);
        if already.endEpoch < epoch && ConfirmUnlink(params, prompts.expired(i)) {
          remaining := new KeyArray(RemoveAt(remaining.items, kept));
          LeadingLinksSnoc(transactions, VotingLink(already, Unlink));
          transactions := transactions + [VotingLink(already, Unlink)];
        } else {
          kept := kept + 1;
        }
        i := i + 1;
      }
      WorkingEnds(UnlinkExpired(linked.items, i, epoch, confirm).remaining, linked.items);
    }

    method AddVotingKeyUnlinkTransactions(linked: KeyArray, files: seq<VotingKey>, prompts: Answers)
      returns (transactions: seq<Transaction>)
      ensures transactions == UnlinkPlan(linked.items, files, Decide(params, prompts)).transactions
    {
      var answers := Decide(params, prompts);
      transactions := [];
      var remaining := linked;
      var i := 0;
      while i < |files|
        invariant 0 <= i <= |files|
        invariant UnlinkFiles(linked.items, files, i, answers.overlapping) == VotingPlan(transactions, remaining.items)
        invariant remaining == linked || fresh(remaining)
      {
        var file := files[i];
        var found := FindOverlap(file, remaining.items);
        if found < |remaining.items| && SameAccount(remaining.items[found], file) {
          if ConfirmUnlink(params, prompts.overlapping(i)) {
            transactions := transactions + [VotingLink(remaining.items[found], Unlink)];
            remaining := new KeyArray(RemoveAt(remaining.items, found));
          }
        }
        i := i + 1;
      }
    }

    method AddTransaction(linked: Option<string>, configured: string, prompted: bool,
                          tx: (string, LinkAction) -> Transaction)
      returns (transactions: seq<Transaction>)
      ensures transactions == SlotPlan(params.unlink, linked, configured, ConfirmUnlink(params, prompted), tx)
    {
      transactions := [];
      var isSame := linked.Some? && Upper(configured) == Upper(linked.value);
      if params.unlink {
        if linked.Some? {
          if isSame {
            transactions := transactions + [tx(configured, Unlink)];
          } else if ConfirmUnlink(params, prompted) {
            transactions := transactions + [tx(linked.value, Unlink)];
          }
        }
      } else {
        if linked.Some? {
          if !isSame && ConfirmUnlink(params, prompted) {
            transactions := transactions + [tx(linked.value, Unlink)];
            transactions := transactions + [tx(configured, Link)];
          }
        } else {
          transactions := transactions + [tx(configured, Link)];
        }
      }
    }

    method CreateGenericTransactions(remote: Option<string>, vrf: Option<string>, voting: KeyArray, node: NodeKeys,
                                     epoch: int, prompts: Answers)
      returns (transactions: seq<Transaction>)
      modifies voting
      ensures transactions
           == GenericPlan(params.unlink, NodeKeys(remote, vrf, old(voting.items)), node, epoch, Decide(params, prompts))
    {
      ghost var current := NodeKeys(remote, vrf, voting.items);
      ghost var answers := Decide(params, prompts);
      transactions := [];
      if node.remote.Some? {
        var more := AddTransaction(remote, node.remote.value, prompts.remote, RemoteTransaction);
        transactions := transactions + more;
      }
      assert transactions == RemotePlan(params.unlink, current, node, answers.remote);
      if node.vrf.Some? {
        var more := AddTransaction(vrf, node.vrf.value, prompts.vrf, VrfTransaction);
        transactions := transactions + more;
      }
      assert transactions == RemotePlan(params.unlink, current, node, answers.remote)
                           + VrfPlan(params.unlink, current, node, answers.vrf);
      var more;
      if params.unlink {
        more := AddVotingKeyUnlinkTransactions(voting, node.voting, prompts);
      } else {
        more := AddVotingKeyLinkTransactions(voting, node.voting, epoch, prompts);
      }
      transactions := transactions + more;
    }

    /** What `LinkService` announces. An absent or zero finalized epoch falls back to the known one. */
    method CreateTransactions(remote: Option<string>, vrf: Option<string>, voting: KeyArray, node: NodeKeys,
                              finalizedEpoch: Option<int>, lastKnownEpoch: int, prompts: Answers)
      returns (transactions: seq<Transaction>)
      modifies voting
      ensures transactions
           == UnlinksFirst(GenericPlan(params.unlink, NodeKeys(remote, vrf, old(voting.items)), node,
                                       if finalizedEpoch == None || finalizedEpoch == Some(0) then lastKnownEpoch
                                       else finalizedEpoch.value, Decide(params, prompts)))
    {
      var plan := CreateGenericTransactions(remote, vrf, voting, node, EpochOr(finalizedEpoch, lastKnownEpoch),
                                            prompts);
      transactions := UnlinksFirst(plan);
    }
  }

  function EpochOr(finalized: Option<int>, lastKnown: int): int {
    if finalized.Some? && finalized.value != 0 then finalized.value else lastKnown
  }
}
