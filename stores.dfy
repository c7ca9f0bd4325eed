/** src/_services/storeService.ts without the radius search: create, read,
    enable/disable, update and delete of `store` rows. A user who already
    runs an influencer account cannot open a store. */
module Stores {
  import opened Common
  import opened Schema

  /** No user owns both a store and an influencer account. */
  ghost predicate NoDualOwner(stores: seq<Store>, influencers: seq<Influencer>)
  {
    forall i, j :: 0 <= i < |stores| && 0 <= j < |influencers| ==> stores[i].userId != influencers[j].userId
  }

  /** influencer.findFirst({user_id: user}). */
  function FindInfluencerOf(influencers: seq<Influencer>, user: nat): (r: Option<nat>)
    ensures r.Some? ==> r.value < |influencers| && influencers[r.value].userId == user
    ensures r.None? ==> forall j :: 0 <= j < |influencers| ==> influencers[j].userId != user
  {
    FirstIndex(influencers, (f: Influencer) => f.userId == user)
  }

  /** The row `store.create` inserts; the columns only updateStore writes are null. */
  function NewStore(id: nat, user: nat, card: StoreCard, d: Defaults): Store
  {
    Store(id, user, card, StoreExtras(None, None, None, None, None, None, None), d.storeEnabled)
  }

  /** The status createStore answers with; an empty name or address is missing. */
  function CreateStoreStatus(influencers: seq<Influencer>, card: StoreCard, user: nat): int
  {
    if FindInfluencerOf(influencers, user).Some? then 409
    else if card.name == "" || card.address == "" then 400
    else 201
  }

  /** A store opened by createStore never gives its user a second role. */
  lemma CreateStoreKeepsNoDualOwner(stores: seq<Store>, influencers: seq<Influencer>, card: StoreCard, user: nat,
                                    id: nat, d: Defaults)
    requires NoDualOwner(stores, influencers)
    requires CreateStoreStatus(influencers, card, user) == 201
    ensures NoDualOwner(stores + [NewStore(id, user, card, d)], influencers)
  {
    var r := stores + [NewStore(id, user, card, d)];
    forall i, j | 0 <= i < |r| && 0 <= j < |influencers|
      ensures r[i].userId != influencers[j].userId
    {
      if i < |stores| {
        assert r[i] == stores[i];
      }
    }
  }

  /** createStore (src/_services/storeService.ts:34-106). */
  method CreateStore(db: Database, card: StoreCard, tokenId: nat) returns (status: int, created: Option<Store>)
    requires db.Valid()
    modifies db`stores, db`nextStoreId
    ensures db.Valid()
    ensures status == CreateStoreStatus(db.influencers, card, tokenId)
    ensures (exists j :: 0 <= j < |db.influencers| && db.influencers[j].userId == tokenId) ==> status == 409
    ensures status != 201 ==> db.stores == old(db.stores) && db.nextStoreId == old(db.nextStoreId) && created.None?
    ensures status == 201 ==> created == Some(NewStore(old(db.nextStoreId), tokenId, card, db.defaults))
    ensures status == 201 ==> db.stores == old(db.stores) + [created.value] && db.nextStoreId == old(db.nextStoreId) + 1
    ensures NoDualOwner(old(db.stores), db.influencers) ==> NoDualOwner(db.stores, db.influencers)
  {
    if FindInfluencerOf(db.influencers, tokenId).Some? {
      return 409, None;
    }
    if card.name == "" || card.address == "" {
      return 400, None;
    }
    var row := NewStore(db.nextStoreId, tokenId, card, db.defaults);
    if NoDualOwner(db.stores, db.influencers) {
      CreateStoreKeepsNoDualOwner(db.stores, db.influencers, card, tokenId, db.nextStoreId, db.defaults);
    }
    KeyedAppend(db.stores, StoreKey, db.nextStoreId, row);
    db.stores := db.stores + [row];
    db.nextStoreId := db.nextStoreId + 1;
    status, created := 201, Some(row);
  }

  /** The fields the read services serialise. */
  datatype StoreView = StoreView(id: nat, card: StoreCard)

  function ViewOf(s: Store): StoreView
  {
    StoreView(s.id, s.card)
  }

  /** getStoreById (src/_services/storeService.ts:125-166). */
  function StoreById(stores: seq<Store>, id: int): (r: Reply<StoreView>)
    ensures r.status == 200 <==> exists i :: 0 <= i < |stores| && stores[i].id == id
    ensures r.status != 200 ==> r.status == 404 && r.body.None?
    ensures r.status == 200 ==> exists i :: 0 <= i < |stores| && stores[i].id == id && r.body == Some(ViewOf(stores[i]))
  {
    match FindByKey(stores, StoreKey, id)
    case None => Reply(404, None)
    case Some(i) => Reply(200, Some(ViewOf(stores[i])))
  }

  /** getAllStores (src/_services/storeService.ts:184-220): 404 on an empty
      table, otherwise every store in table order. */
  function AllStores(stores: seq<Store>): (r: Listing<StoreView>)
    ensures r.status == 404 <==> |stores| == 0
    ensures r.status != 404 ==> r.status == 200 && r.data.Some? && |r.data.value| == |stores|
    ensures r.status != 404 ==> forall i :: 0 <= i < |stores| ==>
      r.data.value[i].id == stores[i].id && r.data.value[i].card == stores[i].card
    ensures r.status == 404 ==> r.data.None?
  {
    if |stores| == 0 then Listing(404, None)
    else Listing(200, Some(seq(|stores|, i requires 0 <= i < |stores| => ViewOf(stores[i]))))
  }

  function FlipStore(s: Store): Store
  {
    s.(enabled := !s.enabled)
  }

  /** enabledStore (src/_services/storeService.ts:241-282): reports the new flag. */
  method EnabledStore(db: Database, id: int) returns (status: int, enabled: Option<bool>)
    requires db.Valid()
    modifies db`stores
    ensures db.Valid()
    ensures status == 404 <==> FindByKey(old(db.stores), StoreKey, id).None?
    ensures status == 404 ==> db.stores == old(db.stores) && enabled.None?
    ensures status != 404 ==> status == 200 && db.stores == UpdateByKey(old(db.stores), StoreKey, id, FlipStore)
    ensures status != 404 ==> exists i :: 0 <= i < |old(db.stores)| && old(db.stores)[i].id == id &&
                                         enabled == Some(!old(db.stores)[i].enabled)
  {
    var found := FindByKey(db.stores, StoreKey, id);
    if found.None? {
      return 404, None;
    }
    var i := found.value;
    var row := FlipStore(db.stores[i]);
    KeyedUpdate(db.stores, StoreKey, db.nextStoreId, i, row);
    db.stores := db.stores[i := row];
    status, enabled := 200, Some(row.enabled);
  }

  /** Enabling twice gives back the table as it was. */
  lemma EnableStoreTwice(stores: seq<Store>, next: nat, id: int)
    requires Keyed(stores, StoreKey, next)
    ensures UpdateByKey(UpdateByKey(stores, StoreKey, id, FlipStore), StoreKey, id, FlipStore) == stores
  {
    UpdateByKeyFacts(stores, StoreKey, next, id, FlipStore, FlipStore);
  }

  /** updateStore's data: a field the request leaves undefined is None, and
      the ORM leaves that column as it is. */
  datatype StorePatch = StorePatch(
    name: Option<string>, zipCode: Option<string>, addressEtc: Option<string>, phone: Option<string>,
    openTime: Option<string>, closeTime: Option<string>, openDays: Option<string>, website: Option<string>,
    images: Option<string>, kind: Option<string>, referralCode: Option<string>, country: Option<string>,
    address: Option<string>)

  function Patched(s: Store, p: StorePatch): Store
  {
    s.(card := StoreCard(Given(p.name, s.card.name), Given(p.zipCode, s.card.zipCode),
                         Given(p.addressEtc, s.card.addressEtc), Given(p.phone, s.card.phone),
                         Given(p.country, s.card.country), Given(p.address, s.card.address)),
       extras := StoreExtras(GivenOpt(p.openTime, s.extras.openTime), GivenOpt(p.closeTime, s.extras.closeTime),
                             GivenOpt(p.openDays, s.extras.openDays), GivenOpt(p.website, s.extras.website),
                             GivenOpt(p.images, s.extras.images), GivenOpt(p.kind, s.extras.kind),
                             GivenOpt(p.referralCode, s.extras.referralCode)))
  }

  function PatchWith(p: StorePatch): Store -> Store
  {
    (s: Store) => Patched(s, p)
  }

  /** updateStore (src/_services/storeService.ts:304-374). */
  method UpdateStore(db: Database, id: int, p: StorePatch) returns (status: int, updated: Option<Store>)
    requires db.Valid()
    modifies db`stores
    ensures db.Valid()
    ensures status == 404 <==> FindByKey(old(db.stores), StoreKey, id).None?
    ensures status == 404 ==> db.stores == old(db.stores) && updated.None?
    ensures status != 404 ==> status == 200 && db.stores == UpdateByKey(old(db.stores), StoreKey, id, PatchWith(p))
  {
    var found := FindByKey(db.stores, StoreKey, id);
    if found.None? {
      return 404, None;
    }
    var i := found.value;
    var row := Patched(db.stores[i], p);
    KeyedUpdate(db.stores, StoreKey, db.nextStoreId, i, row);
    db.stores := db.stores[i := row];
    status, updated := 200, Some(row);
  }

  /** An update touches only the store with that key, keeps its key, owner
      and flag, and sending the same update again changes nothing more. */
  lemma UpdateStoreFacts(stores: seq<Store>, next: nat, id: int, p: StorePatch)
    requires Keyed(stores, StoreKey, next)
    ensures forall i :: 0 <= i < |stores| && stores[i].id != id ==> UpdateByKey(stores, StoreKey, id, PatchWith(p))[i] == stores[i]
    ensures forall i :: 0 <= i < |stores| ==>
      var u := UpdateByKey(stores, StoreKey, id, PatchWith(p))[i];
      u.id == stores[i].id && u.userId == stores[i].userId && u.enabled == stores[i].enabled
    ensures UpdateByKey(UpdateByKey(stores, StoreKey, id, PatchWith(p)), StoreKey, id, PatchWith(p)) ==
            UpdateByKey(stores, StoreKey, id, PatchWith(p))
  {
    UpdateByKeyFacts(stores, StoreKey, next, id, PatchWith(p), PatchWith(p));
  }

  /** deleteStore (src/_services/storeService.ts:394-439). */
  method DeleteStore(db: Database, id: int) returns (status: int)
    requires db.Valid()
    modifies db`stores
    ensures db.Valid()
    ensures status == 404 <==> FindByKey(old(db.stores), StoreKey, id).None?
    ensures status == 404 ==> db.stores == old(db.stores)
    ensures status != 404 ==> status == 200 && db.stores == DeleteByKey(old(db.stores), StoreKey, id)
    ensures forall s :: s in db.stores <==> s in old(db.stores) && s.id != id
  {
    var found := FindByKey(db.stores, StoreKey, id);
    DeleteByKeyFacts(db.stores, StoreKey, db.nextStoreId, id);
    if found.None? {
      return 404;
    }
    db.stores := RemoveAt(db.stores, found.value);
    status := 200;
  }
}
