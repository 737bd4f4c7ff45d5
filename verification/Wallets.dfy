/** Wallet lifecycle: create, update, delete and restore, each a check followed by a guarded commit. */
module Wallets {
  import opened Collections
  import opened Text
  import Base58

  datatype Kind = Evm | Solana | Manual

  datatype Wallet = Wallet(
    userId: int, kind: Kind, chain: string, address: Option<string>, active: bool, addressUpdatedAt: int)

  type Table = map<int, Wallet>

  // ---------- Addresses ----------

  predicate HexDigit(c: char) {
    '0' <= c <= '9' || 'a' <= c <= 'f' || 'A' <= c <= 'F'
  }

  /** `^0[xX][a-fA-F0-9]{40}$` */
  predicate EvmPattern(s: string) {
    && |s| == 42 && s[0] == '0' && (s[1] == 'x' || s[1] == 'X')
    && forall i :: 2 <= i < 42 ==> HexDigit(s[i])
  }

  function NormalizeEvm(address: Option<string>): Base58.Normalized {
    if address.None? then Base58.NoAddress
    else
      var normalized := Strip(address.value);
      if normalized == [] then Base58.Address([])
      else if !EvmPattern(normalized) then Base58.Rejected
      else Base58.Address("0x" + normalized[2..])
  }

  /** `normalize_wallet_address`; the Solana branch is what `Base58.NormalizeSolana` computes. */
  ghost function Normalize(kind: Kind, address: Option<string>): Base58.Normalized {
    match kind
    case Evm => NormalizeEvm(address)
    case Solana =>
      if address.None? then Base58.NoAddress
      else if Strip(address.value) == [] then Base58.Address([])
      else if Base58.Accepted(Strip(address.value)) then Base58.Address(Strip(address.value))
      else Base58.Rejected
    case Manual => if address.None? then Base58.NoAddress else Base58.Address(address.value)
  }

  function AsOption(n: Base58.Normalized): Option<string> {
    if n.Address? then Some(n.text) else None
  }

  /** The address a wallet row stands for, in the API's own comparison. */
  function ApiKey(kind: Kind, address: Option<string>): string {
    var text := if address.Some? then address.value else [];
    if kind.Evm? then Lower(Strip(text)) else Strip(text)
  }

  /** The expression the partial unique index of the wallet's kind stores. */
  function SqlKey(kind: Kind, text: string): string {
    if kind.Evm? then Lower(SqlTrim(text)) else SqlTrim(text)
  }

  // ---------- Rules ----------

  const SUPPORTED_CHAINS: set<string> := {"mainnet", "base", "bnb", "arbitrum", "linea", "all"}

  predicate HasText(address: Option<string>) {
    address.Some? && Strip(address.value) != []
  }

  /** `validate_wallet_network_state` */
  predicate NetworkOk(kind: Kind, chain: string, address: Option<string>) {
    match kind
    case Evm => HasText(address) && chain != "manual" && chain in SUPPORTED_CHAINS
    case Solana => HasText(address) && chain == "solana"
    case Manual => chain == "manual" && address.None?
  }

  predicate Indexed(w: Wallet) {
    !w.kind.Manual? && w.active && w.address.Some?
  }

  /** Two rows the unique indexes refuse to hold together. */
  predicate Conflict(v: Wallet, w: Wallet) {
    && Indexed(v) && Indexed(w) && v.kind == w.kind && v.userId == w.userId
    && SqlKey(v.kind, v.address.value) == SqlKey(w.kind, w.address.value)
  }

  ghost predicate Unique(t: Table) {
    forall i, j :: i in t && j in t && i != j ==> !Conflict(t[i], t[j])
  }

  ghost predicate RulesHold(t: Table) {
    forall i :: i in t ==> NetworkOk(t[i].kind, t[i].chain, t[i].address)
  }

  /** Nothing but spaces around the text, so that the database's trim and `str.strip` agree on it. */
  predicate Plain(address: Option<string>) {
    address.Some? ==> SqlTrim(address.value) == Strip(address.value)
  }

  /** A valid address, possibly with spaces around it; create and update store it without. */
  ghost predicate TrimsToAddress(kind: Kind, address: Option<string>) {
    !kind.Manual? ==>
      && HasText(address) && Plain(address)
      && (kind.Solana? ==> Base58.Accepted(Strip(address.value)))
  }

  ghost predicate RowsTrim(t: Table) {
    forall i :: i in t ==> TrimsToAddress(t[i].kind, t[i].address)
  }

  /** The network rules, kind by kind. */
  lemma NetworkMeaning(kind: Kind, chain: string, address: Option<string>)
    ensures kind.Evm? ==>
              (NetworkOk(kind, chain, address) <==>
               && address.Some? && Strip(address.value) != []
               && chain in {"mainnet", "base", "bnb", "arbitrum", "linea", "all"})
    ensures kind.Solana? ==>
              (NetworkOk(kind, chain, address) <==> address.Some? && Strip(address.value) != [] && chain == "solana")
    ensures kind.Manual? ==> (NetworkOk(kind, chain, address) <==> chain == "manual" && address == None)
  {
    assert "manual"[1] == 'a' && "mainnet"[2] == 'i' && "manual"[2] == 'n';
  }

  lemma SchemaMeaning(chain: Option<string>, address: Option<string>)
    ensures FitsSchema(chain, address) <==>
              && (chain.Some? ==> 1 <= |Strip(chain.value)| <= 32)
              && (address.Some? ==> |Strip(address.value)| <= 44)
  {
  }

  /** An EVM address is 0x or 0X and forty hexadecimal digits, stored with a small x and its digits as they came. */
  lemma EvmMeaning(address: string)
    ensures var text, n := Strip(address), Normalize(Evm, Some(address));
            var hex := |text| == 42 && text[0] == '0' && text[1] in {'x', 'X'}
                       && forall i :: 2 <= i < 42 ==>
                            '0' <= text[i] <= '9' || 'a' <= text[i] <= 'f' || 'A' <= text[i] <= 'F';
            && (n.Rejected? <==> text != [] && !hex)
            && (text == [] ==> n == Base58.Address([]))
            && (hex ==> n.Address? && |n.text| == 42 && n.text[..2] == "0x" && n.text[2..] == text[2..])
    ensures Normalize(Evm, None) == Base58.NoAddress
  {
  }

  /** Two stored rows clash exactly when both are active on-chain rows of one owner and kind, with an address that
      is the same once spaces are trimmed, and, on EVM, letter case is ignored. */
  lemma ConflictMeaning(v: Wallet, w: Wallet)
    ensures Conflict(v, w) <==>
              && v.active && w.active && v.userId == w.userId && v.kind == w.kind && v.kind != Manual
              && v.address.Some? && w.address.Some?
              && (v.kind == Evm ==> Lower(SqlTrim(v.address.value)) == Lower(SqlTrim(w.address.value)))
              && (v.kind == Solana ==> SqlTrim(v.address.value) == SqlTrim(w.address.value))
  {
  }

  // ---------- Requests ----------

  /** Fields left out of a PATCH are absent; an explicit null address is `Some(None)`. */
  datatype Request =
    | Create(userId: int, kind: Kind, chain: string, address: Option<string>)
    | Update(userId: int, id: int, chain': Option<string>, address': Option<Option<string>>, active': Option<bool>)
    | Delete(userId: int, id: int)
    | Restore(userId: int, id: int)

  /** The columns a transaction writes. */
  datatype Change =
    | Insert(wallet: Wallet)
    | Patch(id: int, chain: Option<string>, address: Option<Option<string>>, active: Option<bool>, stamp: Option<int>)

  datatype Decision = Refused(code: int) | Unchanged | Prepared(change: Change)

  /** `_ensure_unique_active_onchain_address` */
  ghost predicate Taken(t: Table, userId: int, kind: Kind, address: Option<string>, exclude: Option<int>) {
    && address.Some? && !kind.Manual?
    && exists i :: i in t && exclude != Some(i) && TakenBy(t[i], userId, kind, address.value)
  }

  predicate TakenBy(w: Wallet, userId: int, kind: Kind, text: string) {
    && w.userId == userId && w.kind == kind && w.active && w.address.Some?
    && SqlKey(kind, w.address.value) == (if kind.Evm? then Lower(Strip(text)) else Strip(text))
  }

  ghost predicate Owned(t: Table, userId: int, id: int) {
    id in t && t[id].userId == userId
  }

  predicate FitsSchema(chain: Option<string>, address: Option<string>) {
    && (chain.Some? ==> 1 <= |Strip(chain.value)| <= 32)
    && (address.Some? ==> |Strip(address.value)| <= 44)
  }

  function Differs<T(==)>(value: Option<T>, loaded: T): Option<T> {
    if value.Some? && value.value != loaded then value else None
  }

  /** Everything a handler does before its commit, against the table it reads. */
  ghost function Decide(t: Table, r: Request, now: int): Decision {
    match r
    case Create(userId, kind, chain, address) =>
      var chain := Lower(Strip(chain));
      var normalized := Normalize(kind, address);
      if !FitsSchema(Some(chain), address) || normalized.Rejected? then Refused(422)
      else if !NetworkOk(kind, chain, AsOption(normalized)) then Refused(422)
      else if Taken(t, userId, kind, AsOption(normalized), None) then Refused(409)
      else Prepared(Insert(Wallet(userId, kind, chain, AsOption(normalized), true, now)))
    case Update(userId, id, chain, address, active) =>
      if !FitsSchema(chain, if address.Some? then address.value else None) then Refused(422)
      else if !Owned(t, userId, id) then Refused(404)
      else DecideUpdate(t, id, chain, address, active, now)
    case Delete(userId, id) =>
      if !Owned(t, userId, id) then Refused(404)
      else if !t[id].active then Unchanged
      else Prepared(Patch(id, None, None, Some(false), None))
    case Restore(userId, id) =>
      if !Owned(t, userId, id) then Refused(404)
      else if t[id].active then Unchanged
      else if Taken(t, userId, t[id].kind, t[id].address, Some(id)) then Refused(409)
      else Prepared(Patch(id, None, None, Some(true), None))
  }

  ghost function DecideUpdate(
    t: Table, id: int, chain': Option<string>, address': Option<Option<string>>, active': Option<bool>, now: int)
    : Decision
    requires id in t
  {
    var w := t[id];
    var normalized := Normalize(w.kind, if address'.Some? then address'.value else w.address);
    var address := if address'.Some? then AsOption(normalized) else w.address;
    var chain := if chain'.Some? then Lower(Strip(chain'.value)) else w.chain;
    var changed := address'.Some? && ApiKey(w.kind, address) != ApiKey(w.kind, w.address);
    if address'.Some? && normalized.Rejected? then Refused(422)
    else if (chain'.Some? || address'.Some?) && !NetworkOk(w.kind, chain, address) then Refused(422)
    else if (if active'.Some? then active'.value else w.active) && Taken(t, w.userId, w.kind, address, Some(id))
    then Refused(409)
    else Prepared(Patch(id, Differs(Some(chain), w.chain), Differs(Some(address), w.address),
                        Differs(active', w.active), if changed then Some(now) else None))
  }

  // ---------- Commit ----------

  function Patched(w: Wallet, c: Change): Wallet
    requires c.Patch?
  {
    w.(chain := if c.chain.Some? then c.chain.value else w.chain,
       address := if c.address.Some? then c.address.value else w.address,
       active := if c.active.Some? then c.active.value else w.active,
       addressUpdatedAt := if c.stamp.Some? then c.stamp.value else w.addressUpdatedAt)
  }

  ghost predicate Applicable(t: Table, c: Change, freshId: int) {
    match c
    case Insert(_) => freshId !in t
    case Patch(id, _, _, _, _) => id in t
  }

  function Target(c: Change, freshId: int): int {
    if c.Insert? then freshId else c.id
  }

  ghost function Written(t: Table, c: Change, freshId: int): Table
    requires Applicable(t, c, freshId)
  {
    if c.Insert? then t[freshId := c.wallet] else t[c.id := Patched(t[c.id], c)]
  }

  /** The unique indexes admit the written row. */
  ghost predicate IndexAdmits(t: Table, c: Change, freshId: int)
    requires Applicable(t, c, freshId)
  {
    var t' := Written(t, c, freshId);
    var target := Target(c, freshId);
    forall i :: i in t' && i != target ==> !Conflict(t'[i], t'[target])
  }

  /** The commit: written whole, or rolled back on an IntegrityError. */
  ghost function Commit(t: Table, c: Change, freshId: int): Table
    requires Applicable(t, c, freshId)
  {
    if IndexAdmits(t, c, freshId) then Written(t, c, freshId) else t
  }

  // ---------- Interleaved requests ----------

  /** Requests that have passed their checks and not yet committed. */
  datatype State = State(table: Table, pending: map<int, Change>)

  datatype Step = Begin(request: int, what: Request, now: int) | Finish(request: int, freshId: int)

  ghost predicate Next(s: State, step: Step, s': State) {
    match step
    case Begin(request, what, now) =>
      && request !in s.pending && s'.table == s.table
      && var d := Decide(s.table, what, now);
         s'.pending == if d.Prepared? then s.pending[request := d.change] else s.pending
    case Finish(request, freshId) =>
      && request in s.pending
      && Applicable(s.table, s.pending[request], freshId)
      && s'.table == Commit(s.table, s.pending[request], freshId)
      && s'.pending == s.pending - {request}
  }

  predicate ChainOk(kind: Kind, chain: string) {
    match kind
    case Evm => chain != "manual" && chain in SUPPORTED_CHAINS
    case Solana => chain == "solana"
    case Manual => chain == "manual"
  }

  predicate AddressOk(kind: Kind, address: Option<string>) {
    if kind.Manual? then address.None? else HasText(address)
  }

  /** Whatever else has committed since, the change leaves the network rules and the stored form intact. */
  ghost predicate ChangeOk(t: Table, c: Change) {
    match c
    case Insert(w) => NetworkOk(w.kind, w.chain, w.address) && TrimsToAddress(w.kind, w.address)
    case Patch(id, chain, address, _, _) =>
      && id in t
      && (chain.Some? ==> ChainOk(t[id].kind, chain.value))
      && (address.Some? ==> AddressOk(t[id].kind, address.value) && TrimsToAddress(t[id].kind, address.value))
  }

  ghost predicate Inv(s: State) {
    && Unique(s.table) && RulesHold(s.table)
    && forall r :: r in s.pending ==> ChangeOk(s.table, s.pending[r])
  }

  /** What the normalizers return, where the network rules ask for an address. */
  lemma NormalizedTrims(kind: Kind, address: Option<string>)
    requires !kind.Manual? && HasText(AsOption(Normalize(kind, address)))
    ensures TrimsToAddress(kind, AsOption(Normalize(kind, address)))
  {
    var n := Normalize(kind, address);
    if kind.Evm? && n.text != [] {
      assert n.text[41] == Strip(address.value)[41];
    }
    SqlTrimStripped(n.text);
  }

  lemma DecisionOk(t: Table, r: Request, now: int)
    requires RulesHold(t) && Decide(t, r, now).Prepared?
    ensures ChangeOk(t, Decide(t, r, now).change)
  {
    if r.Create? && !r.kind.Manual? {
      NormalizedTrims(r.kind, r.address);
    } else if r.Update? && r.address'.Some? && !t[r.id].kind.Manual? {
      NormalizedTrims(t[r.id].kind, r.address'.value);
    }
  }

  lemma CommitKeepsRules(t: Table, c: Change, freshId: int)
    requires Unique(t) && RulesHold(t) && ChangeOk(t, c) && Applicable(t, c, freshId)
    ensures Unique(Commit(t, c, freshId)) && RulesHold(Commit(t, c, freshId))
    ensures RowsTrim(t) ==> RowsTrim(Commit(t, c, freshId))
    ensures forall d :: ChangeOk(t, d) ==> ChangeOk(Commit(t, c, freshId), d)
  {
    var t' := Commit(t, c, freshId);
    forall i, j | i in t' && j in t' && i != j ensures !Conflict(t'[i], t'[j]) {
      var target := Target(c, freshId);
      assert i != target && j != target ==> t'[i] == t[i] && t'[j] == t[j];
    }
  }

  lemma {:induction false} StepKeepsInv(s: State, step: Step, s': State)
    requires Inv(s) && Next(s, step, s')
    ensures Inv(s')
    ensures RowsTrim(s.table) ==> RowsTrim(s'.table)
  {
    match step
    case Begin(request, what, now) =>
      if Decide(s.table, what, now).Prepared? {
        DecisionOk(s.table, what, now);
      }
    case Finish(request, freshId) =>
      CommitKeepsRules(s.table, s.pending[request], freshId);
  }

  ghost predicate Run(states: seq<State>, steps: seq<Step>) {
    |states| == |steps| + 1 && forall i :: 0 <= i < |steps| ==> Next(states[i], steps[i], states[i + 1])
  }

  /** However requests interleave, the indexes hold and every wallet obeys its network's rules; and if the
      stored addresses trim to valid ones at the start, they always do. */
  lemma {:induction false} EveryRunKeepsInv(states: seq<State>, steps: seq<Step>)
    requires Run(states, steps) && Inv(states[0])
    ensures forall i :: 0 <= i < |states| ==> Inv(states[i])
    ensures RowsTrim(states[0].table) ==> forall i :: 0 <= i < |states| ==> RowsTrim(states[i].table)
  {
    for n := 0 to |steps|
      invariant forall i :: 0 <= i <= n ==> Inv(states[i])
      invariant RowsTrim(states[0].table) ==> forall i :: 0 <= i <= n ==> RowsTrim(states[i].table)
    {
      StepKeepsInv(states[n], steps[n], states[n + 1]);
    }
  }

  /** Two active wallets of one owner and on-chain kind. */
  predicate ActivePair(v: Wallet, w: Wallet) {
    !v.kind.Manual? && v.kind == w.kind && v.userId == w.userId && v.active && w.active
  }

  ghost predicate KeysDistinct(t: Table) {
    forall i, j :: i in t && j in t && i != j && ActivePair(t[i], t[j]) ==> DifferentKeys(t[i], t[j])
  }

  /** Different normalised addresses; on Solana, also different 32-byte public keys. */
  ghost predicate DifferentKeys(v: Wallet, w: Wallet) {
    && ApiKey(v.kind, v.address) != ApiKey(w.kind, w.address)
    && (v.kind.Solana? ==>
          && v.address.Some? && Base58.Accepted(Strip(v.address.value))
          && w.address.Some? && Base58.Accepted(Strip(w.address.value))
          && Base58.Decode(Strip(v.address.value)) != Base58.Decode(Strip(w.address.value)))
  }

  /** What the indexes on stored text mean for the addresses themselves. */
  lemma {:induction false} UniqueMeansDistinct(t: Table)
    requires Unique(t) && RowsTrim(t)
    ensures KeysDistinct(t)
  {
    forall i, j | i in t && j in t && i != j && ActivePair(t[i], t[j])
      ensures DifferentKeys(t[i], t[j])
    {
      assert TrimsToAddress(t[i].kind, t[i].address) && TrimsToAddress(t[j].kind, t[j].address);
      assert !Conflict(t[i], t[j]);
      if t[i].kind.Solana? {
        Base58.KeyEquality(Strip(t[i].address.value), Strip(t[j].address.value));
      }
    }
  }

  /** In every state of every interleaving, no two active wallets of one owner and kind stand for the same
      normalised address, and no two Solana wallets for the same 32-byte key. */
  lemma {:induction false} NoTwoWalletsShareAKey(states: seq<State>, steps: seq<Step>, n: nat)
    requires Run(states, steps) && Inv(states[0]) && RowsTrim(states[0].table) && n < |states|
    ensures KeysDistinct(states[n].table)
  {
    EveryRunKeepsInv(states, steps);
    UniqueMeansDistinct(states[n].table);
  }

  // ---------- One request at a time ----------

  ghost function After(t: Table, d: Decision, freshId: int): Table
    requires d.Prepared? ==> Applicable(t, d.change, freshId)
  {
    if d.Prepared? then Commit(t, d.change, freshId) else t
  }

  ghost function StatusOf(t: Table, d: Decision, freshId: int): int
    requires d.Prepared? ==> Applicable(t, d.change, freshId)
  {
    match d
    case Refused(code) => code
    case Unchanged => 200
    case Prepared(change) => if !IndexAdmits(t, change, freshId) then 409 else if change.Insert? then 201 else 200
  }

  /** A commit seen as the write of one row. */
  lemma CommitOfRow(t: Table, c: Change, freshId: int, row: Wallet)
    requires Applicable(t, c, freshId)
    requires row == if c.Insert? then c.wallet else Patched(t[c.id], c)
    ensures var ok := forall i :: i in t && i != Target(c, freshId) ==> !Conflict(t[i], row);
            && (IndexAdmits(t, c, freshId) <==> ok)
            && Commit(t, c, freshId) == if ok then t[Target(c, freshId) := row] else t
  {
    var t' := Written(t, c, freshId);
    assert t' == t[Target(c, freshId) := row];
    assert forall i :: i != Target(c, freshId) ==> (i in t' <==> i in t);
  }

  // ---------- What an update promises its caller ----------

  /** The address an update leads to. */
  ghost function WantedAddress(t: Table, id: int, address': Option<Option<string>>): Option<string> {
    if id !in t then None
    else if address'.Some? then AsOption(Normalize(t[id].kind, address'.value)) else t[id].address
  }

  /** Another active wallet of the same owner and kind stands for the address. */
  ghost predicate HasRival(t: Table, id: int, address: Option<string>) {
    id in t && exists i :: i in t && i != id && Rival(t[i], t[id], address)
  }

  predicate Rival(v: Wallet, w: Wallet, address: Option<string>) {
    v.active && v.userId == w.userId && v.kind == w.kind && ApiKey(v.kind, v.address) == ApiKey(w.kind, address)
  }

  /** A patch of one wallet that stamps the address with `now` exactly when its normalised key changes. */
  ghost predicate PatchStamps(t: Table, id: int, c: Change, now: int) {
    && id in t && c.Patch? && c.id == id
    && var w := t[id];
       c.stamp == if ApiKey(w.kind, Patched(w, c).address) != ApiKey(w.kind, w.address) then Some(now) else None
  }

  lemma TakenMeansConflict(t: Table, userId: int, kind: Kind, address: Option<string>, exclude: Option<int>)
    ensures address.Some? && Plain(address) ==>
              (Taken(t, userId, kind, address, exclude) <==>
               exists i :: i in t && exclude != Some(i) && Conflict(t[i], Wallet(userId, kind, "", address, true, 0)))
  {
    if address.Some? && Plain(address) {
      assert forall i :: i in t && !kind.Manual? ==>
        (TakenBy(t[i], userId, kind, address.value) <==> Conflict(t[i], Wallet(userId, kind, "", address, true, 0)));
    }
  }

  /** The new address is not valid, or a new chain or address breaks the rules of the wallet's network. */
  ghost predicate Malformed(w: Wallet, chain: Option<string>, address: Option<Option<string>>) {
    || (address.Some? && Normalize(w.kind, address.value).Rejected?)
    || ((chain.Some? || address.Some?)
        && !NetworkOk(w.kind, if chain.Some? then Lower(Strip(chain.value)) else w.chain,
                      if address.Some? then AsOption(Normalize(w.kind, address.value)) else w.address))
  }

  lemma UpdateCodes(t: Table, userId: int, id: int, chain: Option<string>, address: Option<Option<string>>,
                    active: Option<bool>, now: int)
    ensures var d := Decide(t, Update(userId, id, chain, address, active), now);
            var fits := FitsSchema(chain, if address.Some? then address.value else None);
            var owned := id in t && t[id].userId == userId;
            && (StatusOf(t, d, id) == 404 <==> fits && !owned)
            && (StatusOf(t, d, id) == 422 <==> !fits || (owned && Malformed(t[id], chain, address)))
  {
  }

  lemma UpdatePlans(t: Table, userId: int, id: int, chain': Option<string>, address': Option<Option<string>>,
                    active': Option<bool>, now: int)
    ensures var d := Decide(t, Update(userId, id, chain', address', active'), now);
            && (d.Prepared? ==> PatchStamps(t, id, d.change, now))
            && (d == Refused(409) && RowsTrim(t) ==> HasRival(t, id, WantedAddress(t, id, address')))
  {
    var d := Decide(t, Update(userId, id, chain', address', active'), now);
    if d == Refused(409) && RowsTrim(t) {
      var wanted := WantedAddress(t, id, address');
      var i :| i in t && i != id && TakenBy(t[i], t[id].userId, t[id].kind, wanted.value);
      assert TrimsToAddress(t[i].kind, t[i].address);
      assert Rival(t[i], t[id], wanted);
    }
  }

  lemma UpdateRefusals(t: Table, userId: int, id: int, chain': Option<string>, address': Option<Option<string>>,
                       active': Option<bool>, now: int)
    ensures var d := Decide(t, Update(userId, id, chain', address', active'), now);
            RowsTrim(t) && RulesHold(t) && d.Prepared? && !IndexAdmits(t, d.change, id) ==>
              HasRival(t, id, WantedAddress(t, id, address'))
  {
    var r := Update(userId, id, chain', address', active');
    var d := Decide(t, r, now);
    if RowsTrim(t) && RulesHold(t) && d.Prepared? && !IndexAdmits(t, d.change, id) {
      DecisionOk(t, r, now);
      var row := Patched(t[id], d.change);
      CommitOfRow(t, d.change, id, row);
      var i :| i in t && i != id && Conflict(t[i], row);
      assert row.address == WantedAddress(t, id, address');
      ConflictIsRival(t[i], t[id], row);
    }
  }

  lemma ConflictIsRival(v: Wallet, w: Wallet, row: Wallet)
    requires Conflict(v, row) && row.userId == w.userId && row.kind == w.kind
    requires TrimsToAddress(v.kind, v.address) && TrimsToAddress(row.kind, row.address)
    ensures Rival(v, w, row.address)
  {
  }

  lemma CreateRefusals(t: Table, userId: int, kind: Kind, chain: string, address: Option<string>, now: int,
          freshId: int)
    requires freshId !in t
    ensures var d := Decide(t, Create(userId, kind, chain, address), now);
            && StatusOf(t, d, freshId) in {201, 409, 422}
            && (RowsTrim(t) && RulesHold(t) && StatusOf(t, d, freshId) != 422 ==>
                  (StatusOf(t, d, freshId) == 409 <==>
                     && !kind.Manual?
                     && exists i :: i in t && t[i].active && t[i].userId == userId && t[i].kind == kind
                                    && ApiKey(kind, t[i].address) == ApiKey(kind, AsOption(Normalize(kind, address)))))
  {
    var r := Create(userId, kind, chain, address);
    var d := Decide(t, r, now);
    if RowsTrim(t) && RulesHold(t) {
      var key := AsOption(Normalize(kind, address));
      if d.Prepared? {
        SequentialNeverConflicts(t, r, now, freshId);
      }
      if !kind.Manual? && HasText(key) {
        NormalizedTrims(kind, address);
        forall i | i in t
          ensures TakenBy(t[i], userId, kind, key.value) <==>
                    t[i].active && t[i].userId == userId && t[i].kind == kind
                    && ApiKey(kind, t[i].address) == ApiKey(kind, key)
        {
          assert TrimsToAddress(t[i].kind, t[i].address);
        }
      }
    }
  }

  lemma DeleteMeaning(t: Table, userId: int, id: int)
    ensures var d := Decide(t, Delete(userId, id), 0);
            && StatusOf(t, d, id) == (if id in t && t[id].userId == userId then 200 else 404)
            && After(t, d, id) == (if id in t && t[id].userId == userId then t[id := t[id].(active := false)] else t)
  {
    if id in t && t[id].active {
      CommitOfRow(t, Patch(id, None, None, Some(false), None), id, t[id].(active := false));
    }
    assert id in t && !t[id].active ==> t[id := t[id].(active := false)] == t;
  }

  lemma RestoreMeaning(t: Table, userId: int, id: int)
    ensures var d := Decide(t, Restore(userId, id), 0);
            && (StatusOf(t, d, id) == 404 <==> !(id in t && t[id].userId == userId))
            && StatusOf(t, d, id) in {200, 404, 409}
            && After(t, d, id) == (if StatusOf(t, d, id) == 200 then t[id := t[id].(active := true)] else t)
            && (StatusOf(t, d, id) != 404 && Plain(t[id].address) ==>
                  (StatusOf(t, d, id) == 409 <==>
                     !t[id].active && exists i :: i in t && i != id && Conflict(t[i], t[id].(active := true))))
  {
    if id in t {
      CommitOfRow(t, Patch(id, None, None, Some(true), None), id, t[id].(active := true));
      assert t[id].active ==> t[id := t[id].(active := true)] == t;
      if Plain(t[id].address) {
        CheckMatchesIndex(t, t[id].(active := true), id);
      }
    }
  }

  /** The wallets table behind the handlers, with the indexes that guard each commit. */
  class Store {
    var table: Table

    constructor (rows: Table)
      ensures table == rows
    {
      table := rows;
    }

    method EnsureUnique(userId: int, kind: Kind, address: Option<string>, exclude: Option<int>) returns (taken: bool)
      ensures taken <==> Taken(table, userId, kind, address, exclude)
      ensures address.Some? && Plain(address) ==>
                (taken <==> exists i :: i in table && exclude != Some(i)
                                        && Conflict(table[i], Wallet(userId, kind, "", address, true, 0)))
    {
      TakenMeansConflict(table, userId, kind, address, exclude);
      if address.None? || kind.Manual? { return false; }
      taken := exists i :: i in table && exclude != Some(i) && TakenBy(table[i], userId, kind, address.value);
    }

    /** Flush and commit one row; an index violation rolls everything back. */
    method CommitRow(id: int, row: Wallet) returns (ok: bool)
      modifies this
      ensures ok <==> forall i :: i in old(table) && i != id ==> !Conflict(old(table)[i], row)
      ensures table == if ok then old(table)[id := row] else old(table)
    {
      var clash := exists i :: i in table && i != id && Conflict(table[i], row);
      if !clash { table := table[id := row]; }
      ok := !clash;
    }

    method Normalized(kind: Kind, address: Option<string>) returns (n: Base58.Normalized)
      ensures n == Normalize(kind, address)
    {
      match kind {
        case Evm => n := NormalizeEvm(address);
        case Solana => n := Base58.NormalizeSolana(address);
        case Manual => n := if address.None? then Base58.NoAddress else Base58.Address(address.value);
      }
    }

    method PlanCreate(userId: int, kind: Kind, chainType: string, address: Option<string>, now: int)
      returns (d: Decision)
      ensures d == Decide(table, Create(userId, kind, chainType, address), now)
    {
      var chain := Lower(Strip(chainType));
      if !FitsSchema(Some(chain), address) { return Refused(422); }
      var normalized := Normalized(kind, address);
      if normalized.Rejected? || !NetworkOk(kind, chain, AsOption(normalized)) { return Refused(422); }
      var taken := EnsureUnique(userId, kind, AsOption(normalized), None);
      if taken { return Refused(409); }
      return Prepared(Insert(Wallet(userId, kind, chain, AsOption(normalized), true, now)));
    }

    method PlanUpdate(userId: int, id: int, chainType: Option<string>, address: Option<Option<string>>,
                      isActive: Option<bool>, now: int)
      returns (d: Decision)
      ensures d == Decide(table, Update(userId, id, chainType, address, isActive), now)
      ensures d.Prepared? ==> PatchStamps(table, id, d.change, now)
      ensures d == Refused(409) && RowsTrim(table) ==> HasRival(table, id, WantedAddress(table, id, address))
    {
      UpdatePlans(table, userId, id, chainType, address, isActive, now);
      if !FitsSchema(chainType, if address.Some? then address.value else None) { return Refused(422); }
      if id !in table || table[id].userId != userId { return Refused(404); }
      var wallet := table[id];
      var newAddress := wallet.address;
      if address.Some? {
        var normalized := Normalized(wallet.kind, address.value);
        if normalized.Rejected? { return Refused(422); }
        newAddress := AsOption(normalized);
      }
      var addressChanged := address.Some? && ApiKey(wallet.kind, newAddress) != ApiKey(wallet.kind, wallet.address);
      var newChain := if chainType.Some? then Lower(Strip(chainType.value)) else wallet.chain;
      if (chainType.Some? || address.Some?) && !NetworkOk(wallet.kind, newChain, newAddress) { return Refused(422); }
      if if isActive.Some? then isActive.value else wallet.active {
        var taken := EnsureUnique(wallet.userId, wallet.kind, newAddress, Some(id));
        if taken { return Refused(409); }
      }
      return Prepared(Patch(id, Differs(Some(newChain), wallet.chain), Differs(Some(newAddress), wallet.address),
                            Differs(isActive, wallet.active), if addressChanged then Some(now) else None));
    }

    method PlanRestore(userId: int, id: int) returns (d: Decision)
      ensures d == Decide(table, Restore(userId, id), 0)
    {
      if id !in table || table[id].userId != userId { return Refused(404); }
      if table[id].active { return Unchanged; }
      var taken := EnsureUnique(userId, table[id].kind, table[id].address, Some(id));
      return if taken then Refused(409) else Prepared(Patch(id, None, None, Some(true), None));
    }

    /** The end of every handler: the reply, and the commit when there is something to write. */
    method Conclude(d: Decision, freshId: int) returns (status: int)
      requires d.Prepared? ==> Applicable(table, d.change, freshId)
      modifies this
      ensures status == StatusOf(old(table), d, freshId)
      ensures table == After(old(table), d, freshId)
    {
      match d
      case Refused(code) => status := code;
      case Unchanged => status := 200;
      case Prepared(change) =>
        var row := if change.Insert? then change.wallet else Patched(table[change.id], change);
        CommitOfRow(table, change, freshId, row);
        var ok := CommitRow(Target(change, freshId), row);
        status := if !ok then 409 else if change.Insert? then 201 else 200;
    }

    method CreateWallet(userId: int, kind: Kind, chainType: string, address: Option<string>, now: int, freshId: int)
      returns (status: int)
      requires freshId !in table
      modifies this
      ensures var d := Decide(old(table), Create(userId, kind, chainType, address), now);
              status == StatusOf(old(table), d, freshId) && table == After(old(table), d, freshId)
      ensures status in {201, 409, 422} && (status != 201 ==> table == old(table))
      ensures status == 201 ==>
                && freshId in table && table == old(table)[freshId := table[freshId]]
                && table[freshId].active && table[freshId].userId == userId && table[freshId].kind == kind
                && table[freshId].chain == Lower(Strip(chainType))
                && table[freshId].address == AsOption(Normalize(kind, address))
                && table[freshId].addressUpdatedAt == now
      ensures status == 422 <==>
                || !FitsSchema(Some(Lower(Strip(chainType))), address) || Normalize(kind, address).Rejected?
                || !NetworkOk(kind, Lower(Strip(chainType)), AsOption(Normalize(kind, address)))
      ensures RowsTrim(old(table)) && RulesHold(old(table)) && status != 422 ==>
                (status == 409 <==>
                   && !kind.Manual?
                   && exists i :: i in old(table) && old(table)[i].active
                                  && old(table)[i].userId == userId && old(table)[i].kind == kind
                                  && ApiKey(kind, old(table)[i].address)
                                     == ApiKey(kind, AsOption(Normalize(kind, address))))
    {
      CreateRefusals(table, userId, kind, chainType, address, now, freshId);
      var d := PlanCreate(userId, kind, chainType, address, now);
      status := Conclude(d, freshId);
    }

    method UpdateWallet(userId: int, id: int, chainType: Option<string>, address: Option<Option<string>>,
                        isActive: Option<bool>, now: int)
      returns (status: int)
      modifies this
      ensures var d := Decide(old(table), Update(userId, id, chainType, address, isActive), now);
              status == StatusOf(old(table), d, id) && table == After(old(table), d, id)
      ensures status in {200, 404, 409, 422} && (status != 200 ==> table == old(table))
      ensures var fits := FitsSchema(chainType, if address.Some? then address.value else None);
              var owned := id in old(table) && old(table)[id].userId == userId;
              && (status == 404 <==> fits && !owned)
              && (status == 422 <==> !fits || (owned && Malformed(old(table)[id], chainType, address)))
      ensures status == 200 ==>
                && id in old(table) && table == old(table)[id := table[id]]
                && table[id].userId == old(table)[id].userId == userId && table[id].kind == old(table)[id].kind
                && table[id].chain == (if chainType.Some? then Lower(Strip(chainType.value)) else old(table)[id].chain)
                && table[id].address == WantedAddress(old(table), id, address)
                && table[id].active == (if isActive.Some? then isActive.value else old(table)[id].active)
                && table[id].addressUpdatedAt
                   == if ApiKey(table[id].kind, table[id].address) != ApiKey(table[id].kind, old(table)[id].address)
                      then now else old(table)[id].addressUpdatedAt
      ensures status == 409 && RowsTrim(old(table)) && RulesHold(old(table)) ==>
                HasRival(old(table), id, WantedAddress(old(table), id, address))
    {
      UpdatePlans(table, userId, id, chainType, address, isActive, now);
      UpdateRefusals(table, userId, id, chainType, address, isActive, now);
      UpdateCodes(table, userId, id, chainType, address, isActive, now);
      var d := PlanUpdate(userId, id, chainType, address, isActive, now);
      status := Conclude(d, id);
    }

    method DeleteWallet(userId: int, id: int) returns (status: int)
      modifies this
      ensures var d := Decide(old(table), Delete(userId, id), 0);
              status == StatusOf(old(table), d, id) && table == After(old(table), d, id)
      ensures status == if id in old(table) && old(table)[id].userId == userId then 200 else 404
      ensures table == if status == 200 then old(table)[id := old(table)[id].(active := false)] else old(table)
    {
      DeleteMeaning(table, userId, id);
      if id !in table || table[id].userId != userId { return 404; }
      status := Conclude(
        if table[id].active then Prepared(Patch(id, None, None, Some(false), None)) else Unchanged, id);
    }

    method RestoreWallet(userId: int, id: int) returns (status: int)
      modifies this
      ensures var d := Decide(old(table), Restore(userId, id), 0);
              status == StatusOf(old(table), d, id) && table == After(old(table), d, id)
      ensures status == 404 <==> !(id in old(table) && old(table)[id].userId == userId)
      ensures status in {200, 404, 409}
      ensures table == if status == 200 then old(table)[id := old(table)[id].(active := true)] else old(table)
      ensures status != 404 && Plain(old(table)[id].address) ==>
                (status == 409 <==>
                   && !old(table)[id].active
                   && exists i :: i in old(table) && i != id
                                  && Conflict(old(table)[i], old(table)[id].(active := true)))
    {
      RestoreMeaning(table, userId, id);
      var d := PlanRestore(userId, id);
      status := Conclude(d, id);
    }
  }

  // ---------- The check and the index ----------

  /** For an address with nothing but spaces around it, "taken" is exactly "the index would refuse the active row". */
  lemma CheckMatchesIndex(t: Table, w: Wallet, id: int)
    requires Plain(w.address) && w.active
    ensures Taken(t, w.userId, w.kind, w.address, Some(id)) <==> exists i :: i in t && i != id && Conflict(t[i], w)
  {
    assert forall i :: i in t && i != id && w.address.Some? && !w.kind.Manual? ==>
      (TakenBy(t[i], w.userId, w.kind, w.address.value) <==> Conflict(t[i], w));
  }

  /** The row a decision would write. */
  ghost function RowOf(t: Table, c: Change): Wallet
    requires c.Insert? || c.id in t
  {
    if c.Insert? then c.wallet else Patched(t[c.id], c)
  }

  /** An active row that a request is about to write has passed the check for its own address. */
  lemma PreparedIsFree(t: Table, r: Request, now: int, freshId: int)
    requires freshId !in t && Decide(t, r, now).Prepared?
    ensures var c := Decide(t, r, now).change;
            && Applicable(t, c, freshId)
            && var row := RowOf(t, c);
               row.active ==> !Taken(t, row.userId, row.kind, row.address, Some(Target(c, freshId)))
  {
  }

  lemma FreeIsAdmitted(t: Table, c: Change, freshId: int)
    requires Applicable(t, c, freshId) && TrimsToAddress(RowOf(t, c).kind, RowOf(t, c).address)
    requires var row := RowOf(t, c);
             row.active ==> !Taken(t, row.userId, row.kind, row.address, Some(Target(c, freshId)))
    ensures IndexAdmits(t, c, freshId)
  {
    var row := RowOf(t, c);
    CommitOfRow(t, c, freshId, row);
    if Indexed(row) {
      CheckMatchesIndex(t, row, Target(c, freshId));
    }
  }

  lemma ChangeOkMeansTrimmed(t: Table, c: Change)
    requires RowsTrim(t) && ChangeOk(t, c)
    ensures TrimsToAddress(RowOf(t, c).kind, RowOf(t, c).address)
  {
  }

  /** Alone, on a table as every run keeps it, a request that passes its check is never refused by the index. */
  lemma {:induction false} SequentialNeverConflicts(t: Table, r: Request, now: int, freshId: int)
    requires RulesHold(t) && RowsTrim(t) && freshId !in t
    requires Decide(t, r, now).Prepared?
    ensures Applicable(t, Decide(t, r, now).change, freshId) && IndexAdmits(t, Decide(t, r, now).change, freshId)
  {
    DecisionOk(t, r, now);
    ChangeOkMeansTrimmed(t, Decide(t, r, now).change);
    PreparedIsFree(t, r, now, freshId);
    FreeIsAdmitted(t, Decide(t, r, now).change, freshId);
  }

  /** An update that leaves an active wallet's address alone passes exactly when no other row takes the address;
      with nothing but spaces around it, none does. */
  lemma {:induction false} OwnAddressIsFree(t: Table, id: int, chain': Option<string>, now: int)
    requires Unique(t) && RulesHold(t) && id in t && t[id].active
    requires FitsSchema(chain', None) && (chain'.Some? ==> ChainOk(t[id].kind, Lower(Strip(chain'.value))))
    ensures var w := t[id];
            && (Decide(t, Update(w.userId, id, chain', None, None), now).Prepared?
                <==> !Taken(t, w.userId, w.kind, w.address, Some(id)))
            && (Plain(w.address) ==> !Taken(t, w.userId, w.kind, w.address, Some(id)))
  {
    if Plain(t[id].address) {
      CheckMatchesIndex(t, t[id], id);
    }
  }

  /** Restoring undoes deleting exactly when no other row takes the address; with nothing but spaces around it,
      none does. */
  lemma {:induction false} RestoreUndoesDelete(t: Table, userId: int, id: int, freshId: int)
    requires Unique(t) && freshId !in t && Owned(t, userId, id) && t[id].active
    ensures var w := t[id];
            var deleted := After(t, Decide(t, Delete(userId, id), 0), freshId);
            var restored := Decide(deleted, Restore(userId, id), 0);
            && !deleted[id].active
            && (restored.Prepared? <==> !Taken(t, userId, w.kind, w.address, Some(id)))
            && (restored.Prepared? ==> After(deleted, restored, freshId) == t)
            && (Plain(w.address) ==> restored.Prepared?)
  {
    var deleted := After(t, Decide(t, Delete(userId, id), 0), freshId);
    assert deleted == t[id := t[id].(active := false)];
    assert forall i :: i in deleted && i != id ==> deleted[i] == t[i];
    CommitOfRow(deleted, Patch(id, None, None, Some(true), None), freshId, t[id]);
    if Plain(t[id].address) {
      CheckMatchesIndex(t, t[id], id);
    }
  }

  /** Two restores of the same address both pass their checks; only the index stops the second. */
  lemma {:induction false} BothChecksPass(t: Table, i: int, j: int, freshId: int)
    requires i in t && j in t && i != j && freshId !in t && Unique(t)
    requires !t[i].active && t[i].address.Some? && Plain(t[i].address) && !t[i].kind.Manual?
    requires t[j] == t[i]
    requires !Taken(t, t[i].userId, t[i].kind, t[i].address, None)
    ensures var first, second := Decide(t, Restore(t[i].userId, i), 0), Decide(t, Restore(t[j].userId, j), 0);
            && first.Prepared? && second.Prepared?
            && var once := Commit(t, first.change, freshId);
               && once[i].active
               && Commit(once, second.change, freshId) == once
               && !Unique(Written(once, second.change, freshId))
  {
    var first, second := Decide(t, Restore(t[i].userId, i), 0), Decide(t, Restore(t[j].userId, j), 0);
    CheckMatchesIndex(t, t[i].(active := true), i);
    var once := Commit(t, first.change, freshId);
    assert once == t[i := t[i].(active := true)];
    var twice := Written(once, second.change, freshId);
    assert Conflict(twice[i], twice[j]);
  }

  // ---------- The migrations that introduce the indexes ----------

  /** `duplicate_rank > 1`: an older active row has the same owner, kind and key. */
  predicate HasOlder(t: Table, id: int)
    requires id in t
  {
    exists i :: i in t && i < id && Conflict(t[i], t[id])
  }

  function KeepOldest(t: Table): Table {
    map id | id in t :: if HasOlder(t, id) then t[id].(active := false) else t[id]
  }

  lemma {:induction false} OldestOf(t: Table, id: int, ids: set<int>) returns (oldest: int)
    requires id in t && Indexed(t[id]) && id in ids
    requires forall i :: i in ids <==> i in t && i <= id && (i == id || Conflict(t[i], t[id]))
    ensures oldest in ids && forall i :: i in ids ==> oldest <= i
  {
    oldest := LeastOf(ids);
  }

  lemma {:induction false} LeastOf(ids: set<int>) returns (least: int)
    requires ids != {}
    ensures least in ids && forall i :: i in ids ==> least <= i
    decreases |ids|
  {
    var x := Pick(ids);
    if ids - {x} == {} {
      assert forall i :: i in ids ==> i in ids - {x} || i == x;
      least := x;
    } else {
      assert forall i :: i in ids ==> i in ids - {x} || i == x;
      var rest := LeastOf(ids - {x});
      least := if x < rest then x else rest;
    }
  }

  /** The cleaned table satisfies the indexes, keeps the rules, and each class of duplicates keeps just its
      oldest row. */
  lemma {:induction false} KeepOldestCleans(t: Table)
    ensures KeepOldest(t).Keys == t.Keys && Unique(KeepOldest(t))
    ensures RulesHold(t) ==> RulesHold(KeepOldest(t))
    ensures RowsTrim(t) ==> RowsTrim(KeepOldest(t))
    ensures Unique(t) ==> KeepOldest(t) == t
    ensures forall id :: id in t ==>
              || KeepOldest(t)[id] == t[id]
              || (KeepOldest(t)[id] == t[id].(active := false) && exists i :: i in t && i < id && Conflict(t[i], t[id]))
    ensures forall id :: id in t && Indexed(t[id]) ==> OldestSurvives(t, id)
  {
    var t' := KeepOldest(t);
    forall i, j | i in t' && j in t' && i != j ensures !Conflict(t'[i], t'[j]) {
      assert t'[i].active ==> t'[i] == t[i] && !HasOlder(t, i);
      assert t'[j].active ==> t'[j] == t[j] && !HasOlder(t, j);
      assert Conflict(t[i], t[j]) <==> Conflict(t[j], t[i]);
    }
    forall id | id in t && Indexed(t[id]) ensures OldestSurvives(t, id) {
      var ids := set i | i in t && i <= id && (i == id || Conflict(t[i], t[id]));
      var oldest := OldestOf(t, id, ids);
      assert forall i :: i in t && i < oldest && Conflict(t[i], t[oldest]) ==> i in ids;
      assert Survivor(t, id, oldest);
    }
  }

  ghost predicate Survivor(t: Table, id: int, oldest: int)
    requires id in t
  {
    && oldest in t && oldest <= id && (oldest == id || Conflict(t[oldest], t[id]))
    && KeepOldest(t)[oldest] == t[oldest]
    && forall i :: i in t && i < oldest ==> !Conflict(t[i], t[id])
  }

  ghost predicate OldestSurvives(t: Table, id: int)
    requires id in t
  {
    exists oldest :: Survivor(t, id, oldest)
  }

  /** From the table the migrations leave, whatever it held before: in every interleaving the indexes hold and
      every wallet obeys its network's rules, and where the stored addresses trimmed to valid ones, no two
      active wallets of one owner and kind ever share a normalised address or a decoded key. */
  lemma {:induction false} AfterTheMigrations(t: Table, states: seq<State>, steps: seq<Step>, n: nat)
    requires RulesHold(t) && Run(states, steps) && states[0] == State(KeepOldest(t), map[]) && n < |states|
    ensures Unique(states[n].table) && RulesHold(states[n].table)
    ensures RowsTrim(t) ==> KeysDistinct(states[n].table)
  {
    KeepOldestCleans(t);
    EveryRunKeepsInv(states, steps);
    if RowsTrim(t) {
      NoTwoWalletsShareAKey(states, steps, n);
    }
  }
}
