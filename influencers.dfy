/** src/_services/influencerServcice.ts: create, read, enable/disable, update
    and delete of `influencer` rows. A user who already runs a store cannot
    become an influencer. The account e-mail is validated only after the row
    has been inserted, so a rejected request leaves its row behind. */
module Influencers {
  import opened Common
  import opened Schema
  import opened Validate
  import opened Stores

  /** store.findFirst({user_id: user}). */
  function FindStoreOf(stores: seq<Store>, user: nat): (r: Option<nat>)
    ensures r.Some? ==> r.value < |stores| && stores[r.value].userId == user
    ensures r.None? ==> forall j :: 0 <= j < |stores| ==> stores[j].userId != user
  {
    FirstIndex(stores, (s: Store) => s.userId == user)
  }

  /** The row `influencer.create` inserts. */
  function NewInfluencer(id: nat, user: nat, card: InfluencerCard, d: Defaults): Influencer
  {
    Influencer(id, user, card, d.influencerEnabled)
  }

  /** The status createInfluencer answers with. */
  function CreateInfluencerStatus(stores: seq<Store>, card: InfluencerCard, user: nat): int
  {
    if FindStoreOf(stores, user).Some? then 409
    else if !ValidateEmail(card.account) then 400
    else 201
  }

  /** Any insert createInfluencer makes, accepted or not, keeps users from
      holding both roles. */
  lemma CreateInfluencerKeepsNoDualOwner(stores: seq<Store>, influencers: seq<Influencer>, card: InfluencerCard,
                                         user: nat, id: nat, d: Defaults)
    requires NoDualOwner(stores, influencers)
    requires CreateInfluencerStatus(stores, card, user) != 409
    ensures NoDualOwner(stores, influencers + [NewInfluencer(id, user, card, d)])
  {
    var r := influencers + [NewInfluencer(id, user, card, d)];
    forall i, j | 0 <= i < |stores| && 0 <= j < |r|
      ensures stores[i].userId != r[j].userId
    {
      if j < |influencers| {
        assert r[j] == influencers[j];
      }
    }
  }

  /** createInfluencer (src/_services/influencerServcice.ts:30-113): the row
      is created before the account is validated, so a 400 leaves it in place. */
  method CreateInfluencer(db: Database, card: InfluencerCard, tokenId: nat)
    returns (status: int, created: Option<Influencer>)
    requires db.Valid()
    modifies db`influencers, db`nextInfluencerId
    ensures db.Valid()
    ensures status == CreateInfluencerStatus(db.stores, card, tokenId)
    ensures status == 409 <==> exists j :: 0 <= j < |db.stores| && db.stores[j].userId == tokenId
    ensures status == 409 ==> db.influencers == old(db.influencers) && db.nextInfluencerId == old(db.nextInfluencerId)
    ensures status != 409 ==> db.nextInfluencerId == old(db.nextInfluencerId) + 1
    ensures status != 409 ==>
      db.influencers == old(db.influencers) + [NewInfluencer(old(db.nextInfluencerId), tokenId, card, db.defaults)]
    ensures created.Some? <==> status == 201
    ensures status == 201 ==> created == Some(NewInfluencer(old(db.nextInfluencerId), tokenId, card, db.defaults))
    ensures NoDualOwner(db.stores, old(db.influencers)) ==> NoDualOwner(db.stores, db.influencers)
  {
    if FindStoreOf(db.stores, tokenId).Some? {
      return 409, None;
    }
    var row := NewInfluencer(db.nextInfluencerId, tokenId, card, db.defaults);
    if NoDualOwner(db.stores, db.influencers) {
      CreateInfluencerKeepsNoDualOwner(db.stores, db.influencers, card, tokenId, db.nextInfluencerId, db.defaults);
    }
    KeyedAppend(db.influencers, InfluencerKey, db.nextInfluencerId, row);
    db.influencers := db.influencers + [row];
    db.nextInfluencerId := db.nextInfluencerId + 1;
    if !ValidateEmail(card.account) {
      return 400, None;
    }
    status, created := 201, Some(row);
  }

  /** The fields the read services serialise (no website). */
  datatype InfluencerView = InfluencerView(id: nat, account: string, imageUrl: string, contents: string, referralCode: string)

  function InfluencerViewOf(f: Influencer): InfluencerView
  {
    InfluencerView(f.id, f.card.account, f.card.imageUrl, f.card.contents, f.card.referralCode)
  }

  /** getInfluencerById (src/_services/influencerServcice.ts:133-173). */
  function InfluencerById(influencers: seq<Influencer>, id: int): (r: Reply<InfluencerView>)
    ensures r.status == 200 <==> exists i :: 0 <= i < |influencers| && influencers[i].id == id
    ensures r.status != 200 ==> r.status == 404 && r.body.None?
    ensures r.status == 200 ==>
      exists i :: 0 <= i < |influencers| && influencers[i].id == id && r.body == Some(InfluencerViewOf(influencers[i]))
  {
    match FindByKey(influencers, InfluencerKey, id)
    case None => Reply(404, None)
    case Some(i) => Reply(200, Some(InfluencerViewOf(influencers[i])))
  }

  /** getAllInfluencer (src/_services/influencerServcice.ts:190-224). */
  function AllInfluencers(influencers: seq<Influencer>): (r: Listing<InfluencerView>)
    ensures r.status == 404 <==> |influencers| == 0
    ensures r.status == 404 ==> r.data.None?
    ensures r.status != 404 ==> r.status == 200 && r.data.Some? && |r.data.value| == |influencers|
    ensures r.status != 404 ==> forall i :: 0 <= i < |influencers| ==>
      var v, c := r.data.value[i], influencers[i].card;
      v.id == influencers[i].id && v.account == c.account && v.imageUrl == c.imageUrl &&
      v.contents == c.contents && v.referralCode == c.referralCode
  {
    if |influencers| == 0 then Listing(404, None)
    else Listing(200, Some(seq(|influencers|, i requires 0 <= i < |influencers| => InfluencerViewOf(influencers[i]))))
  }

  function FlipInfluencer(f: Influencer): Influencer
  {
    f.(enabled := !f.enabled)
  }

  /** enabledInfluencer (src/_services/influencerServcice.ts:244-293). */
  method EnabledInfluencer(db: Database, id: int) returns (status: int, enabled: Option<bool>)
    requires db.Valid()
    modifies db`influencers
    ensures db.Valid()
    ensures status == 404 <==> FindByKey(old(db.influencers), InfluencerKey, id).None?
    ensures status == 404 ==> db.influencers == old(db.influencers) && enabled.None?
    ensures status != 404 ==>
      status == 200 && db.influencers == UpdateByKey(old(db.influencers), InfluencerKey, id, FlipInfluencer)
    ensures status != 404 ==> exists i :: 0 <= i < |old(db.influencers)| && old(db.influencers)[i].id == id &&
                                         enabled == Some(!old(db.influencers)[i].enabled)
  {
    var found := FindByKey(db.influencers, InfluencerKey, id);
    if found.None? {
      return 404, None;
    }
    var i := found.value;
    var row := FlipInfluencer(db.influencers[i]);
    KeyedUpdate(db.influencers, InfluencerKey, db.nextInfluencerId, i, row);
    db.influencers := db.influencers[i := row];
    status, enabled := 200, Some(row.enabled);
  }

  /** Enabling twice gives back the table as it was. */
  lemma EnableInfluencerTwice(influencers: seq<Influencer>, next: nat, id: int)
    requires Keyed(influencers, InfluencerKey, next)
    ensures UpdateByKey(UpdateByKey(influencers, InfluencerKey, id, FlipInfluencer), InfluencerKey, id, FlipInfluencer)
            == influencers
  {
    UpdateByKeyFacts(influencers, InfluencerKey, next, id, FlipInfluencer, FlipInfluencer);
  }

  /** updateInfluencer's data; None is a field the request leaves undefined. */
  datatype InfluencerPatch = InfluencerPatch(
    account: Option<string>, imageUrl: Option<string>, contents: Option<string>,
    referralCode: Option<string>, website: Option<string>)

  function PatchedInfluencer(f: Influencer, p: InfluencerPatch): Influencer
  {
    f.(card := InfluencerCard(Given(p.account, f.card.account), Given(p.imageUrl, f.card.imageUrl),
                              Given(p.contents, f.card.contents), Given(p.referralCode, f.card.referralCode),
                              Given(p.website, f.card.website)))
  }

  function InfluencerPatchWith(p: InfluencerPatch): Influencer -> Influencer
  {
    (f: Influencer) => PatchedInfluencer(f, p)
  }

  /** updateInfluencer (src/_services/influencerServcice.ts:315-380); the
      account is not re-validated. */
  method UpdateInfluencer(db: Database, id: int, p: InfluencerPatch) returns (status: int, updated: Option<Influencer>)
    requires db.Valid()
    modifies db`influencers
    ensures db.Valid()
    ensures status == 404 <==> FindByKey(old(db.influencers), InfluencerKey, id).None?
    ensures status == 404 ==> db.influencers == old(db.influencers) && updated.None?
    ensures status != 404 ==>
      status == 200 && db.influencers == UpdateByKey(old(db.influencers), InfluencerKey, id, InfluencerPatchWith(p))
  {
    var found := FindByKey(db.influencers, InfluencerKey, id);
    if found.None? {
      return 404, None;
    }
    var i := found.value;
    var row := PatchedInfluencer(db.influencers[i], p);
    KeyedUpdate(db.influencers, InfluencerKey, db.nextInfluencerId, i, row);
    db.influencers := db.influencers[i := row];
    status, updated := 200, Some(row);
  }

  /** An update touches only that influencer, keeps its key, owner and flag,
      and repeating it changes nothing more. */
  lemma UpdateInfluencerFacts(influencers: seq<Influencer>, next: nat, id: int, p: InfluencerPatch)
    requires Keyed(influencers, InfluencerKey, next)
    ensures forall i :: 0 <= i < |influencers| && influencers[i].id != id ==>
      UpdateByKey(influencers, InfluencerKey, id, InfluencerPatchWith(p))[i] == influencers[i]
    ensures forall i :: 0 <= i < |influencers| ==>
      var u := UpdateByKey(influencers, InfluencerKey, id, InfluencerPatchWith(p))[i];
      u.id == influencers[i].id && u.userId == influencers[i].userId && u.enabled == influencers[i].enabled
    ensures UpdateByKey(UpdateByKey(influencers, InfluencerKey, id, InfluencerPatchWith(p)), InfluencerKey, id,
                        InfluencerPatchWith(p)) ==
            UpdateByKey(influencers, InfluencerKey, id, InfluencerPatchWith(p))
  {
    UpdateByKeyFacts(influencers, InfluencerKey, next, id, InfluencerPatchWith(p), InfluencerPatchWith(p));
  }

  /** deleteInfluencer (src/_services/influencerServcice.ts:399-438). */
  method DeleteInfluencer(db: Database, id: int) returns (status: int)
    requires db.Valid()
    modifies db`influencers
    ensures db.Valid()
    ensures status == 404 <==> FindByKey(old(db.influencers), InfluencerKey, id).None?
    ensures status == 404 ==> db.influencers == old(db.influencers)
    ensures status != 404 ==> status == 200 && db.influencers == DeleteByKey(old(db.influencers), InfluencerKey, id)
    ensures forall f :: f in db.influencers <==> f in old(db.influencers) && f.id != id
  {
    var found := FindByKey(db.influencers, InfluencerKey, id);
    DeleteByKeyFacts(db.influencers, InfluencerKey, db.nextInfluencerId, id);
    if found.None? {
      return 404;
    }
    db.influencers := RemoveAt(db.influencers, found.value);
    status := 200;
  }
}
