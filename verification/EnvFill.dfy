/**
What init and upgrade add to a deployment's .env: the operator's inputs, a
fresh value for every generated secret it lacks, and GoTrue's signing
material. A .env is the map of what reading each key gives; writing a value
leaves what reading it back strips space and one pair of quotes from.
*/
module EnvFill {
  import opened ByteStrings
  import opened Wrappers

  datatype Key =
    | Input(name: string) // only the operator can supply it
    | Secret(name: string, mountable: bool) // generated; mountable if compose also takes it as a file
    | JwtKeys | JwtSecret | Token // GoTrue's signing keys, secret and service-role token
    | SecretFile(name: string) | TokenFile // the names with _FILE appended
    | Other(name: string)

  /** The lists the fill works through. */
  datatype Lists = Lists(inputs: seq<Key>, secrets: seq<Key>) {
    ghost predicate Valid() {
      (forall k :: k in inputs ==> k.Input?) && (forall k :: k in secrets ==> k.Secret?)
    }

    predicate Needs(k: Key) {
      k in inputs || k in secrets || k.JwtKeys? || k.JwtSecret? || k.Token?
    }
  }

  /** What this release's boot needs. */
  const BOOT: Lists := Lists(
    [Input("TF_PUBLIC_URL"), Input("GH_CLIENT_ID"), Input("GH_CLIENT_SECRET")],
    [Secret("POSTGRES_PASSWORD", false), Secret("SUPABASE_AUTH_ADMIN_PASSWORD", false),
     Secret("TF_AUTHENTICATOR_PASSWORD", false), Secret("TF_SYSTEM_PASSWORD", false),
     Secret("TF_SESSION_ENCRYPTION_KEY", true), Secret("TF_COOKIE_SECRET", true),
     Secret("TF_SECRET_ENCRYPTION_KEY", true), Secret("TF_WORKSPACE_ACCESS_KEY", false),
     Secret("TF_WORKSPACE_SECRET_KEY", false), Secret("TF_KNOWLEDGE_ACCESS_KEY", false),
     Secret("TF_KNOWLEDGE_SECRET_KEY", false), Secret("TF_KNOWLEDGE_READER_ACCESS_KEY", false),
     Secret("TF_KNOWLEDGE_READER_SECRET_KEY", false), Secret("SEAWEEDFS_ADMIN_ACCESS_KEY", false),
     Secret("SEAWEEDFS_ADMIN_SECRET_KEY", false)])

  lemma BootIsValid()
    ensures BOOT.Valid()
  {
  }

  type Env = map<Key, Bytes>

  datatype Var = Var(key: Key, value: Bytes)

  function StripQuotes(v: Bytes): Bytes {
    if |v| >= 2 && v[0] == v[|v| - 1] && (v[0] == QUOTE || v[0] == 34) then v[1..|v| - 1] else v
  }

  /** A value as reading it back gives it. */
  function Clean(v: Bytes): Bytes {
    TrimSpace(StripQuotes(TrimSpace(v)))
  }

  /** Text with a visible character at each end, and no quote at its start, reads back as it is. */
  lemma PlainReadsBack(v: Bytes)
    requires v != [] && 32 < v[0] < 0x80 && 32 < v[|v| - 1] < 0x80 && v[0] != 34 && v[0] != 39
    ensures Clean(v) == v
  {
    TrimSpaceNothing(v);
  }

  /** One pair of quotes around it, single or double, is taken off. */
  lemma QuotedReadsBack(v: Bytes, quote: byte)
    requires v != [] && 32 < v[0] < 0x80 && 32 < v[|v| - 1] < 0x80 && (quote == 34 || quote == 39)
    ensures Clean([quote] + v + [quote]) == v
  {
    var q := [quote] + v + [quote];
    TrimSpaceNothing(q);
    assert q[1..|q| - 1] == v;
    TrimSpaceNothing(v);
  }

  function Get(env: Env, k: Key): Bytes {
    if k in env then env[k] else []
  }

  /** k has a value, in plain or file form. */
  predicate Has(env: Env, k: Key) {
    || Get(env, k) != []
    || (k.Token? && Get(env, TokenFile) != [])
    || (k.Secret? && k.mountable && Get(env, SecretFile(k.name)) != [])
  }

  // ------------------------------------------------------------------
  // The operator's inputs
  // ------------------------------------------------------------------

  /** What the operator offers: flags, which of them fail validation, and answers on a terminal. */
  datatype Offer = Offer(flags: map<Key, Bytes>, invalid: set<Key>, terminal: bool, answers: map<Key, Bytes>)

  function Flag(offer: Offer, k: Key): Bytes {
    if k in offer.flags then offer.flags[k] else []
  }

  /** k alone is reason to refuse: a flag against .env, an invalid flag, or nothing to go by. */
  predicate Refuses(env: Env, offer: Offer, k: Key) {
    var existing, flag := Get(env, k), Flag(offer, k);
    if existing != [] then flag != [] && flag != existing
    else if flag != [] then k in offer.invalid
    else !offer.terminal || k !in offer.answers
  }

  function Supplied(offer: Offer, k: Key): Bytes {
    if Flag(offer, k) != [] then Flag(offer, k) else if k in offer.answers then offer.answers[k] else []
  }

  /** Exactly the inputs .env lacks. */
  function Resolved(env: Env, inputs: seq<Key>, offer: Offer): map<Key, Bytes> {
    map k | k in inputs && Get(env, k) == [] :: Supplied(offer, k)
  }

  ghost predicate SomeRefuses(env: Env, inputs: seq<Key>, offer: Offer) {
    exists i :: 0 <= i < |inputs| && Refuses(env, offer, inputs[i])
  }

  /** An input neither .env nor a flag settles. */
  predicate Open(env: Env, offer: Offer, k: Key) {
    Get(env, k) == [] && Flag(offer, k) == []
  }

  /** The flags against .env: what they settle, what they leave open, and whether any is a problem. */
  method ReadFlags(env: Env, inputs: seq<Key>, offer: Offer)
    returns (clear: bool, missing: seq<Key>, values: map<Key, Bytes>)
    ensures clear <==> forall i :: 0 <= i < |inputs| && !Open(env, offer, inputs[i]) ==> !Refuses(env, offer, inputs[i])
    ensures forall k :: k in missing <==> k in inputs && Open(env, offer, k)
    ensures clear ==> forall k :: k in values <==> k in inputs && Get(env, k) == [] && !Open(env, offer, k)
    ensures forall k :: k in values ==> values[k] == Supplied(offer, k)
  {
    clear, missing, values := true, [], map[];
    for n := 0 to |inputs|
      invariant clear <==> forall i :: 0 <= i < n && !Open(env, offer, inputs[i]) ==> !Refuses(env, offer, inputs[i])
      invariant forall k :: k in missing <==> k in inputs[..n] && Open(env, offer, k)
      invariant clear ==> forall k :: k in values <==> k in inputs[..n] && Get(env, k) == [] && !Open(env, offer, k)
      invariant forall k :: k in values ==> values[k] == Supplied(offer, k)
    {
      var k := inputs[n];
      assert inputs[..n + 1] == inputs[..n] + [k];
      var existing, flag := Get(env, k), Flag(offer, k);
      if flag != [] && existing != [] && flag != existing {
        clear := false;
      } else if existing != [] {
      } else if flag != [] {
        if k in offer.invalid {
          clear := false;
          continue;
        }
        values := values[k := flag];
      } else {
        missing := missing + [k];
      }
    }
    assert inputs[..|inputs|] == inputs;
  }

  method ResolveInputs(env: Env, inputs: seq<Key>, offer: Offer) returns (r: Option<map<Key, Bytes>>)
    ensures r.None? <==> SomeRefuses(env, inputs, offer)
    ensures r.Some? ==> r.value == Resolved(env, inputs, offer)
  {
    var clear, missing, found := ReadFlags(env, inputs, offer);
    if !clear {
      return None;
    }
    var values := found;
    for n := 0 to |missing|
      invariant forall k :: k in values <==> k in found || k in missing[..n]
      invariant forall k :: k in values ==> values[k] == Supplied(offer, k)
      invariant forall i :: 0 <= i < n ==> !Refuses(env, offer, missing[i])
    {
      var k := missing[n];
      assert missing[..n + 1] == missing[..n] + [k] && k in missing;
      if !offer.terminal || k !in offer.answers {
        assert Refuses(env, offer, k);
        return None;
      }
      values := values[k := offer.answers[k]];
    }
    assert missing[..|missing|] == missing;
    forall i | 0 <= i < |inputs|
      ensures !Refuses(env, offer, inputs[i])
    {
      if Open(env, offer, inputs[i]) {
        assert inputs[i] in missing;
      }
    }
    assert values == Resolved(env, inputs, offer);
    r := Some(values);
  }

  // ------------------------------------------------------------------
  // Assignments
  // ------------------------------------------------------------------

  /** envfile.Set: each assignment in turn replaces the key's value, to be read back cleaned. */
  function Set(env: Env, vars: seq<Var>): Env {
    if vars == [] then env
    else Set(env, vars[..|vars| - 1])[vars[|vars| - 1].key := Clean(vars[|vars| - 1].value)]
  }

  /** The value vars leaves k with, if it assigns k. */
  function Assignment(vars: seq<Var>, k: Key): Option<Bytes> {
    if vars == [] then None
    else if vars[|vars| - 1].key == k then Some(vars[|vars| - 1].value)
    else Assignment(vars[..|vars| - 1], k)
  }

  lemma {:induction false} AssignmentOfBoth(a: seq<Var>, b: seq<Var>, k: Key)
    ensures Assignment(a + b, k) == if Assignment(b, k).Some? then Assignment(b, k) else Assignment(a, k)
    decreases |b|
  {
    if b == [] {
      assert a + b == a;
    } else {
      AssignmentOfBoth(a, b[..|b| - 1], k);
      assert (a + b)[..|a + b| - 1] == a + b[..|b| - 1];
    }
  }

  lemma {:induction false} SetAt(env: Env, vars: seq<Var>, k: Key)
    ensures k in Set(env, vars) <==> k in env || Assignment(vars, k).Some?
    ensures k in Set(env, vars) ==>
              Set(env, vars)[k] == if Assignment(vars, k).Some? then Clean(Assignment(vars, k).value) else env[k]
  {
    if vars != [] {
      SetAt(env, vars[..|vars| - 1], k);
    }
  }

  // ------------------------------------------------------------------
  // The fill
  // ------------------------------------------------------------------

  /** Those of keys that values gives one, in their order. */
  function VarsFor(keys: seq<Key>, values: map<Key, Bytes>): seq<Var> {
    if keys == [] then []
    else
      var k := keys[|keys| - 1];
      VarsFor(keys[..|keys| - 1], values) + if k in values then [Var(k, values[k])] else []
  }

  /** Fresh secrets and signing material, one per key that may need one. */
  type Draw = map<Key, Bytes>

  function Drawn(draw: Draw, k: Key): Bytes {
    if k in draw then draw[k] else []
  }

  /** A fresh value for every key env lacks. */
  function Fresh(env: Env, keys: seq<Key>, draw: Draw): map<Key, Bytes> {
    map k | k in keys && !Has(env, k) :: Drawn(draw, k)
  }

  function Unless(held: bool, draw: Draw, k: Key): seq<Var> {
    if held then [] else [Var(k, Drawn(draw, k))]
  }

  /** What .env says about GoTrue's material. */
  datatype Held = Held(keys: bool, secret: bool, token: bool, tokenFile: bool)

  function HeldBy(env: Env): Held {
    Held(
      Get(env, JwtKeys) != [], Has(env, JwtSecret), Has(env, Token),
      Get(env, TokenFile) != [])
  }

  /** A new keypair brings a new token, unless a file holds it; an old one only fills what is missing. */
  function SigningVars(held: Held, draw: Draw): seq<Var> {
    if !held.keys then
      [Var(JwtKeys, Drawn(draw, JwtKeys))]
      + Unless(held.secret, draw, JwtSecret)
      + Unless(held.tokenFile, draw, Token)
    else
      Unless(held.token, draw, Token) + Unless(held.secret, draw, JwtSecret)
  }

  /** Which of GoTrue's keys that assigns. */
  predicate SigningAssigned(held: Held, k: Key) {
    || (k.JwtKeys? && !held.keys)
    || (k.JwtSecret? && !held.secret)
    || (k.Token? && if held.keys then !held.token else !held.tokenFile)
  }

  function FillVars(lists: Lists, env: Env, values: map<Key, Bytes>, draw: Draw): seq<Var> {
    VarsFor(lists.inputs, values) + VarsFor(lists.secrets, Fresh(env, lists.secrets, draw)) + SigningVars(HeldBy(env), draw)
  }

  /** The fill fails only where an existing keypair must be reused and cannot be read. */
  predicate CannotReuse(env: Env, readable: bool) {
    Get(env, JwtKeys) != [] && !Has(env, Token) && !readable
  }

  method CollectInputs(keys: seq<Key>, values: map<Key, Bytes>) returns (vars: seq<Var>)
    ensures vars == VarsFor(keys, values)
  {
    vars := [];
    for n := 0 to |keys|
      invariant vars == VarsFor(keys[..n], values)
    {
      assert keys[..n + 1][..n] == keys[..n];
      if keys[n] in values {
        vars := vars + [Var(keys[n], values[keys[n]])];
      }
    }
    assert keys[..|keys|] == keys;
  }

  method CollectSecrets(env: Env, keys: seq<Key>, draw: Draw) returns (vars: seq<Var>)
    ensures vars == VarsFor(keys, Fresh(env, keys, draw))
  {
    vars := [];
    for n := 0 to |keys|
      invariant vars == VarsFor(keys[..n], Fresh(env, keys, draw))
    {
      assert keys[..n + 1][..n] == keys[..n] && keys[n] in keys;
      if Has(env, keys[n]) {
        continue;
      }
      vars := vars + [Var(keys[n], Drawn(draw, keys[n]))];
    }
    assert keys[..|keys|] == keys;
  }

  method Fill(lists: Lists, env: Env, values: map<Key, Bytes>, draw: Draw, readable: bool) returns (r: Option<seq<Var>>)
    ensures r.None? <==> Get(env, JwtKeys) != [] && Get(env, Token) == [] && Get(env, TokenFile) == [] && !readable
    ensures r.Some? ==> r.value == FillVars(lists, env, values, draw)
  {
    var given := CollectInputs(lists.inputs, values);
    var secrets := CollectSecrets(env, lists.secrets, draw);
    if CannotReuse(env, readable) {
      return None;
    }
    r := Some(given + secrets + SigningVars(HeldBy(env), draw));
  }

  // ------------------------------------------------------------------
  // What the fill assigns
  // ------------------------------------------------------------------

  /** Which keys the fill assigns. */
  predicate Assigned(lists: Lists, env: Env, values: map<Key, Bytes>, k: Key) {
    && lists.Needs(k)
    && if k.Input? then k in values else if k.Secret? then !Has(env, k) else SigningAssigned(HeldBy(env), k)
  }

  lemma {:induction false} VarsForAt(keys: seq<Key>, values: map<Key, Bytes>, k: Key)
    ensures Assignment(VarsFor(keys, values), k) == if k in keys && k in values then Some(values[k]) else None
  {
    if keys != [] {
      var front, last := keys[..|keys| - 1], keys[|keys| - 1];
      VarsForAt(front, values, k);
      assert keys == front + [last];
      AssignmentOfBoth(VarsFor(front, values), if last in values then [Var(last, values[last])] else [], k);
    }
  }

  lemma UnlessAt(held: bool, draw: Draw, key: Key, k: Key)
    ensures Assignment(Unless(held, draw, key), k) == if !held && k == key then Some(Drawn(draw, k)) else None
  {
  }

  lemma SigningAt(held: Held, draw: Draw, k: Key)
    ensures Assignment(SigningVars(held, draw), k)
         == if SigningAssigned(held, k) then Some(Drawn(draw, k)) else None
  {
    var keys, secret := JwtKeys, JwtSecret;
    var token := Token;
    UnlessAt(held.secret, draw, secret, k);
    if held.keys {
      UnlessAt(held.token, draw, token, k);
      AssignmentOfBoth(Unless(held.token, draw, token), Unless(held.secret, draw, secret), k);
    } else {
      UnlessAt(held.tokenFile, draw, token, k);
      UnlessAt(false, draw, keys, k);
      var fresher := [Var(keys, Drawn(draw, keys))];
      AssignmentOfBoth(fresher, Unless(held.secret, draw, secret), k);
      AssignmentOfBoth(fresher + Unless(held.secret, draw, secret), Unless(held.tokenFile, draw, token), k);
    }
  }

  /** The fill gives k its value exactly when it assigns k. */
  lemma FillAt(lists: Lists, env: Env, values: map<Key, Bytes>, draw: Draw, k: Key)
    requires lists.Valid()
    ensures Assignment(FillVars(lists, env, values, draw), k)
         == if !Assigned(lists, env, values, k) then None
            else Some(if k.Input? then values[k] else Drawn(draw, k))
  {
    var missing := Fresh(env, lists.secrets, draw);
    VarsForAt(lists.inputs, values, k);
    VarsForAt(lists.secrets, missing, k);
    SigningAt(HeldBy(env), draw, k);
    var given, secrets := VarsFor(lists.inputs, values), VarsFor(lists.secrets, missing);
    AssignmentOfBoth(given + secrets, SigningVars(HeldBy(env), draw), k);
    AssignmentOfBoth(given, secrets, k);
  }

  /** The fill for what the operator offers. */
  function Plan(lists: Lists, env: Env, offer: Offer, draw: Draw): seq<Var> {
    FillVars(lists, env, Resolved(env, lists.inputs, offer), draw)
  }

  /** It assigns k exactly when .env lacks k, or when k is the token of a keypair that is gone. */
  lemma PlanAt(lists: Lists, env: Env, offer: Offer, draw: Draw, k: Key)
    requires lists.Valid()
    ensures var orphan := k.Token? && Get(env, JwtKeys) == [] && Get(env, TokenFile) == [];
            Assignment(Plan(lists, env, offer, draw), k)
            == if lists.Needs(k) && (!Has(env, k) || orphan)
               then Some(if k.Input? then Supplied(offer, k) else Drawn(draw, k)) else None
  {
    FillAt(lists, env, Resolved(env, lists.inputs, offer), draw, k);
  }

  /**
  The same key by key, on what reading the .env gives. A secret is assigned
  exactly when it has no plain value and, if it can be mounted, no file; the
  token when it has no file and, the keypair being there, no plain value;
  every other needed key when it has no value.
  */
  lemma AssignedOnLookups(lists: Lists, env: Env, offer: Offer, draw: Draw, k: Key)
    requires lists.Valid()
    ensures var given := Assignment(Plan(lists, env, offer, draw), k);
            && (given.Some? <==>
                  match k
                  case Input(_) => k in lists.inputs && Get(env, k) == []
                  case Secret(n, mountable) =>
                    k in lists.secrets && Get(env, k) == [] && (mountable ==> Get(env, SecretFile(n)) == [])
                  case JwtKeys => Get(env, JwtKeys) == []
                  case JwtSecret => Get(env, JwtSecret) == []
                  case Token => Get(env, TokenFile) == [] && (Get(env, JwtKeys) == [] || Get(env, Token) == [])
                  case _ => false)
            && (given.Some? ==> given.value == if k.Input? then Supplied(offer, k) else Drawn(draw, k))
  {
    PlanAt(lists, env, offer, draw, k);
  }

  /** A secret the operator moved to a file, or left in plain, is not put back; a file does not stand in for one that cannot be mounted. */
  lemma FileFormStands(lists: Lists, env: Env, offer: Offer, draw: Draw, n: string)
    requires lists.Valid()
    ensures Get(env, SecretFile(n)) != [] || Get(env, Secret(n, true)) != [] ==>
              Assignment(Plan(lists, env, offer, draw), Secret(n, true)).None?
    ensures Get(env, TokenFile) != [] ==> Assignment(Plan(lists, env, offer, draw), Token).None?
    ensures Secret(n, false) in lists.secrets && Get(env, Secret(n, false)) == [] ==>
              Assignment(Plan(lists, env, offer, draw), Secret(n, false)).Some?
  {
    AssignedOnLookups(lists, env, offer, draw, Secret(n, true));
    AssignedOnLookups(lists, env, offer, draw, Secret(n, false));
    AssignedOnLookups(lists, env, offer, draw, Token);
  }

  /**
  Nothing .env has is replaced, in plain or file form, with one exception: the
  service-role token in .env, when the keypair that signed it is gone.
  */
  lemma NothingReplaced(lists: Lists, env: Env, offer: Offer, draw: Draw, k: Key)
    requires lists.Valid() && Assignment(Plan(lists, env, offer, draw), k).Some? && Has(env, k)
    ensures k == Token && Get(env, JwtKeys) == [] && Get(env, TokenFile) == []
  {
    PlanAt(lists, env, offer, draw, k);
  }

  /** Every fresh value reads back as something. */
  ghost predicate GoodDraw(lists: Lists, draw: Draw) {
    forall k :: lists.Needs(k) && !k.Input? ==> Clean(Drawn(draw, k)) != []
  }

  /** Hexadecimal secrets, as the generator draws them, do. */
  lemma HexDrawIsGood(lists: Lists, draw: Draw)
    requires forall k :: lists.Needs(k) && !k.Input? ==>
      && k in draw && |draw[k]| == 64
      && forall i :: 0 <= i < 64 ==> '0' <= Text(draw[k])[i] <= '9' || 'a' <= Text(draw[k])[i] <= 'f'
    ensures GoodDraw(lists, draw)
  {
    forall k | lists.Needs(k) && !k.Input?
      ensures Clean(Drawn(draw, k)) != []
    {
      var v := draw[k];
      assert Text(v)[0] == (v[0] as int) as char && Text(v)[63] == (v[63] as int) as char;
      PlainReadsBack(v);
    }
  }

  function Filled(lists: Lists, env: Env, offer: Offer, draw: Draw): Env {
    Set(env, Plan(lists, env, offer, draw))
  }

  /** What reading k from the filled .env gives. */
  lemma ReadBack(lists: Lists, env: Env, offer: Offer, draw: Draw, k: Key)
    requires lists.Valid()
    ensures Get(Filled(lists, env, offer, draw), k)
         == var written := Assignment(Plan(lists, env, offer, draw), k);
            if written.Some? then Clean(written.value) else Get(env, k)
  {
    SetAt(env, Plan(lists, env, offer, draw), k);
  }

  lemma FilledAt(lists: Lists, env: Env, offer: Offer, draw: Draw, k: Key)
    requires lists.Valid() && GoodDraw(lists, draw) && lists.Needs(k)
    ensures !k.Input? ==> Has(Filled(lists, env, offer, draw), k)
    ensures k.Input? ==>
              (Has(Filled(lists, env, offer, draw), k) <==> Get(env, k) != [] || Clean(Supplied(offer, k)) != [])
  {
    PlanAt(lists, env, offer, draw, k);
    ReadBack(lists, env, offer, draw, k);
    PlanAt(lists, env, offer, draw, TokenFile);
    ReadBack(lists, env, offer, draw, TokenFile);
    if k.Secret? {
      PlanAt(lists, env, offer, draw, SecretFile(k.name));
      ReadBack(lists, env, offer, draw, SecretFile(k.name));
    }
  }

  /** Every input the fill adds reads back as something. */
  ghost predicate InputsHold(lists: Lists, env: Env, offer: Offer) {
    forall k :: k in lists.inputs && Get(env, k) == [] ==> Clean(Supplied(offer, k)) != []
  }

  ghost predicate HasEveryKey(lists: Lists, env: Env) {
    forall k :: lists.Needs(k) ==> Has(env, k)
  }

  /** Afterwards every needed key is there exactly when every input added survives being read back. */
  lemma FillIsComplete(lists: Lists, env: Env, offer: Offer, draw: Draw)
    requires lists.Valid() && GoodDraw(lists, draw)
    ensures HasEveryKey(lists, Filled(lists, env, offer, draw)) <==> InputsHold(lists, env, offer)
  {
    var filled := Filled(lists, env, offer, draw);
    forall k | lists.Needs(k)
      ensures InputsHold(lists, env, offer) ==> Has(filled, k)
      ensures Has(filled, k) && k in lists.inputs && Get(env, k) == [] ==> Clean(Supplied(offer, k)) != []
    {
      FilledAt(lists, env, offer, draw, k);
    }
  }

  lemma CompleteNeedsNothing(lists: Lists, env: Env, offer: Offer, draw: Draw, k: Key)
    requires lists.Valid() && HasEveryKey(lists, env)
    ensures Assignment(Plan(lists, env, offer, draw), k).None?
  {
    PlanAt(lists, env, offer, draw, k);
    assert lists.Needs(JwtKeys) && Has(env, JwtKeys);
  }

  /** A list that is not empty assigns something: its last key. */
  lemma SomeAssignment(vars: seq<Var>) returns (k: Key)
    requires vars != []
    ensures Assignment(vars, k).Some?
  {
    k := vars[|vars| - 1].key;
  }

  /** And then a second fill adds nothing, whatever is offered or drawn. */
  lemma SecondFillIsEmpty(lists: Lists, env: Env, offer: Offer, draw: Draw, again: Offer, fresher: Draw)
    requires lists.Valid() && GoodDraw(lists, draw) && InputsHold(lists, env, offer)
    ensures Plan(lists, Filled(lists, env, offer, draw), again, fresher) == []
  {
    var filled := Filled(lists, env, offer, draw);
    FillIsComplete(lists, env, offer, draw);
    if Plan(lists, filled, again, fresher) != [] {
      var k := SomeAssignment(Plan(lists, filled, again, fresher));
      CompleteNeedsNothing(lists, filled, again, fresher, k);
    }
  }

  lemma TwoQuotesReadEmpty()
    ensures Clean([34, 34]) == []
  {
    TrimSpaceNothing([34, 34]);
    assert [34 as byte, 34][1..1] == [];
  }

  /** A client id of two quotes passes for a token, and reads back as nothing: the key is still missing. */
  lemma QuotesReadBackEmpty(env: Env, offer: Offer, draw: Draw)
    requires GoodDraw(BOOT, draw)
    requires Get(env, BOOT.inputs[1]) == [] && Flag(offer, BOOT.inputs[1]) == [34, 34]
    ensures BOOT.inputs[1] == Input("GH_CLIENT_ID")
    ensures !HasEveryKey(BOOT, Filled(BOOT, env, offer, draw))
  {
    TwoQuotesReadEmpty();
    BootIsValid();
    EmptyInputLeavesAGap(BOOT, env, offer, draw, BOOT.inputs[1]);
  }

  /** Any input that reads back as nothing leaves its key missing. */
  lemma EmptyInputLeavesAGap(lists: Lists, env: Env, offer: Offer, draw: Draw, k: Key)
    requires lists.Valid() && GoodDraw(lists, draw) && k in lists.inputs
    requires Get(env, k) == [] && Clean(Supplied(offer, k)) == []
    ensures !HasEveryKey(lists, Filled(lists, env, offer, draw))
  {
    FillIsComplete(lists, env, offer, draw);
  }
}
