/**
 * The NFT marketplace: minting, ownership transfer, royalties, fractional
 * shares, collections, and sale listings paid for in the ledger's native
 * balances. The balance table is the ledger's, passed in and returned.
 */
module NftMarketplace {
  import opened Base
  import opened Balances

  /**
   * One token's record. `salePrice` is `None` while the token carries no
   * `"sale_price"` key.
   */
  datatype Nft = Nft(
    owner: string,
    metadata: map<string, Json>,
    fractions: map<string, real>,
    royaltyPercentage: real,
    royaltyRecipient: string,
    salePrice: Option<real>)

  /** `{"owner": ..., "nfts": [...]}`. */
  datatype Collection = Collection(owner: string, nfts: seq<string>)

  datatype Marketplace = Marketplace(nfts: map<string, Nft>, collections: map<string, Collection>)

  /** `NFTMarketplace(blockchain)`: no tokens, no collections. */
  const NewMarketplace: Marketplace := Marketplace(map[], map[])

  /**
   * `mint_nft`: succeeds exactly when the id is new, creating a record
   * wholly owned by `owner`, with no royalty, `owner` as royalty recipient
   * and no listing. Nothing changes on failure.
   */
  function MintNft(m: Marketplace, tokenId: string, owner: string, metadata: map<string, Json>): (r: (bool, Marketplace))
    ensures r.0 <==> tokenId !in m.nfts
    ensures !r.0 ==> r.1 == m
    ensures r.0 ==>
      && r.1.collections == m.collections
      && r.1.nfts.Keys == m.nfts.Keys + {tokenId}
      && (forall t :: t in m.nfts ==> r.1.nfts[t] == m.nfts[t])
      && r.1.nfts[tokenId] == Nft(owner, metadata, map[owner := 1.0], 0.0, owner, None)
  {
    if tokenId !in m.nfts then
      (true, m.(nfts := m.nfts[tokenId := Nft(owner, metadata, map[owner := 1.0], 0.0, owner, None)]))
    else (false, m)
  }

  /** A freshly minted token has a single holder with the whole of it. */
  lemma {:induction false} MintWhole(m: Marketplace, tokenId: string, owner: string, metadata: map<string, Json>)
    requires tokenId !in m.nfts
    ensures Total(MintNft(m, tokenId, owner, metadata).1.nfts[tokenId].fractions) == 1.0
  {
    var empty: map<string, real> := map[];
    TotalUpdate(empty, owner, 1.0);
    assert empty[owner := 1.0] == map[owner := 1.0];
  }

  /**
   * `transfer_nft`: succeeds exactly when the token exists and `from` owns
   * it, and then changes the owner field and nothing else.
   */
  function TransferNft(m: Marketplace, tokenId: string, from: string, to: string): (r: (bool, Marketplace))
    ensures r.0 <==> tokenId in m.nfts && m.nfts[tokenId].owner == from
    ensures !r.0 ==> r.1 == m
    ensures r.0 ==> r.1 == m.(nfts := m.nfts[tokenId := m.nfts[tokenId].(owner := to)])
  {
    if tokenId in m.nfts && m.nfts[tokenId].owner == from then
      (true, m.(nfts := m.nfts[tokenId := m.nfts[tokenId].(owner := to)]))
    else (false, m)
  }

  /** Transferring back undoes a successful transfer. */
  lemma TransferBack(m: Marketplace, tokenId: string, from: string, to: string)
    requires TransferNft(m, tokenId, from, to).0
    ensures TransferNft(TransferNft(m, tokenId, from, to).1, tokenId, to, from) == (true, m)
  {
    var n := m.nfts[tokenId];
    assert m.nfts[tokenId := n.(owner := to)][tokenId := n] == m.nfts;
  }

  /**
   * `set_royalties`: on an existing token sets the percentage and the
   * recipient (the percentage is not range-checked); fails otherwise.
   */
  function SetRoyalties(m: Marketplace, tokenId: string, percentage: real, recipient: string): (r: (bool, Marketplace))
    ensures r.0 <==> tokenId in m.nfts
    ensures !r.0 ==> r.1 == m
    ensures r.0 ==>
      && r.1.collections == m.collections && r.1.nfts.Keys == m.nfts.Keys
      && (forall t :: t in m.nfts && t != tokenId ==> r.1.nfts[t] == m.nfts[t])
      && r.1.nfts[tokenId] == m.nfts[tokenId].(royaltyPercentage := percentage, royaltyRecipient := recipient)
  {
    if tokenId in m.nfts then
      (true, m.(nfts := m.nfts[tokenId := m.nfts[tokenId].(royaltyPercentage := percentage, royaltyRecipient := recipient)]))
    else (false, m)
  }

  /**
   * `fractionalize_nft`: replaces the share table of an existing token when
   * the given shares sum to exactly one; fails otherwise. It is ghost here
   * because summing a map's values picks its keys in an unspecified order.
   */
  ghost function FractionalizeNft(m: Marketplace, tokenId: string, fractions: map<string, real>): (r: (bool, Marketplace))
    ensures r.0 <==> tokenId in m.nfts && Total(fractions) == 1.0
    ensures !r.0 ==> r.1 == m
    ensures r.0 ==> r.1 == m.(nfts := m.nfts[tokenId := m.nfts[tokenId].(fractions := fractions)])
    ensures r.0 ==> Total(r.1.nfts[tokenId].fractions) == 1.0
  {
    if tokenId in m.nfts && Total(fractions) == 1.0 then
      (true, m.(nfts := m.nfts[tokenId := m.nfts[tokenId].(fractions := fractions)]))
    else (false, m)
  }

  /** `create_collection`: succeeds once per id, with an empty token list. */
  function CreateCollection(m: Marketplace, collectionId: string, owner: string): (r: (bool, Marketplace))
    ensures r.0 <==> collectionId !in m.collections
    ensures !r.0 ==> r.1 == m
    ensures r.0 ==> r.1 == m.(collections := m.collections[collectionId := Collection(owner, [])])
  {
    if collectionId !in m.collections then
      (true, m.(collections := m.collections[collectionId := Collection(owner, [])]))
    else (false, m)
  }

  /** Creating the same collection twice fails the second time. */
  lemma CreateCollectionOnce(m: Marketplace, collectionId: string, owner: string, owner2: string)
    requires CreateCollection(m, collectionId, owner).0
    ensures CreateCollection(CreateCollection(m, collectionId, owner).1, collectionId, owner2)
         == (false, CreateCollection(m, collectionId, owner).1)
  {
  }

  /**
   * `add_nft_to_collection`: needs both the token and the collection, and
   * appends the id (a token can be added more than once).
   */
  function AddNftToCollection(m: Marketplace, tokenId: string, collectionId: string): (r: (bool, Marketplace))
    ensures r.0 <==> tokenId in m.nfts && collectionId in m.collections
    ensures !r.0 ==> r.1 == m
    ensures r.0 ==>
      && r.1.nfts == m.nfts && r.1.collections.Keys == m.collections.Keys
      && r.1.collections[collectionId].owner == m.collections[collectionId].owner
      && r.1.collections[collectionId].nfts == m.collections[collectionId].nfts + [tokenId]
      && (forall c :: c in m.collections && c != collectionId ==> r.1.collections[c] == m.collections[c])
  {
    if tokenId in m.nfts && collectionId in m.collections then
      var c := m.collections[collectionId];
      (true, m.(collections := m.collections[collectionId := c.(nfts := c.nfts + [tokenId])]))
    else (false, m)
  }

  /**
   * `list_nft_for_sale`: succeeds exactly when the token exists and is not
   * already listed, recording the price (any price, zero included).
   */
  function ListNftForSale(m: Marketplace, tokenId: string, price: real): (r: (bool, Marketplace))
    ensures r.0 <==> tokenId in m.nfts && m.nfts[tokenId].salePrice.None?
    ensures !r.0 ==> r.1 == m
    ensures r.0 ==> r.1 == m.(nfts := m.nfts[tokenId := m.nfts[tokenId].(salePrice := Some(price))])
  {
    if tokenId in m.nfts && m.nfts[tokenId].salePrice.None? then
      (true, m.(nfts := m.nfts[tokenId := m.nfts[tokenId].(salePrice := Some(price))]))
    else (false, m)
  }

  /** A token can be listed only once until it is bought. */
  lemma ListOnce(m: Marketplace, tokenId: string, price: real, price2: real)
    requires ListNftForSale(m, tokenId, price).0
    ensures !ListNftForSale(ListNftForSale(m, tokenId, price).1, tokenId, price2).0
  {
  }

  /** The sale goes ahead: a listing with a truthy (non-zero) price that the buyer's balance covers. */
  predicate Buyable(m: Marketplace, balances: map<string, real>, tokenId: string, buyer: string)
  {
    && tokenId in m.nfts
    && m.nfts[tokenId].salePrice.Some? && m.nfts[tokenId].salePrice.value != 0.0
    && Get(balances, buyer) >= m.nfts[tokenId].salePrice.value
  }

  /** `balances[k] += d` on an entry that exists. */
  function Adjust(balances: map<string, real>, k: string, d: real): (r: map<string, real>)
    requires k in balances
    ensures r.Keys == balances.Keys
    ensures r[k] == balances[k] + d
    ensures forall a :: a in balances && a != k ==> r[a] == balances[a]
  {
    balances[k := balances[k] + d]
  }

  /** Adjusting one entry moves the sum of all balances by the same amount. */
  lemma AdjustTotal(balances: map<string, real>, k: string, d: real)
    requires k in balances
    ensures Total(Adjust(balances, k, d)) == Total(balances) + d
  {
    TotalCreditAt(balances, k, d, Adjust(balances, k, d));
  }

  /** `balances[from] -= amount; balances[to] += amount`, on existing entries. */
  function Move(balances: map<string, real>, from: string, to: string, amount: real): (r: map<string, real>)
    requires from in balances && to in balances
    ensures r.Keys == balances.Keys
    ensures forall a :: a in balances && a != from && a != to ==> r[a] == balances[a]
    ensures from != to ==> r[from] == balances[from] - amount && r[to] == balances[to] + amount
  {
    Adjust(Adjust(balances, from, -amount), to, amount)
  }

  /** A move neither creates nor destroys money, even from an address to itself. */
  lemma MoveConserves(balances: map<string, real>, from: string, to: string, amount: real)
    requires from in balances && to in balances
    ensures Total(Move(balances, from, to, amount)) == Total(balances)
  {
    var b1 := Adjust(balances, from, -amount);
    AdjustTotal(balances, from, -amount);
    AdjustTotal(b1, to, amount);
  }

  /** The royalty on a sale at `price`: `price * pct / 100`. */
  function Royalty(n: Nft, price: real): real
  {
    price * (n.royaltyPercentage / 100.0)
  }

  /** The keys `buy_nft` indexes directly when the sale goes ahead. */
  predicate PartiesHaveBalances(m: Marketplace, balances: map<string, real>, tokenId: string, buyer: string, seller: string)
    requires tokenId in m.nfts
  {
    && buyer in balances && seller in balances
    && (m.nfts[tokenId].royaltyPercentage > 0.0 ==> m.nfts[tokenId].royaltyRecipient in balances)
  }

  /**
   * The balance moves of a sale: the buyer pays `price` to the seller, then,
   * with a positive percentage, the seller passes the royalty on to its
   * recipient. Each step reads the balance it writes, so the moves compose
   * even when parties coincide.
   */
  function Settle(balances: map<string, real>, n: Nft, buyer: string, seller: string, price: real): (r: map<string, real>)
    requires buyer in balances && seller in balances
    requires n.royaltyPercentage > 0.0 ==> n.royaltyRecipient in balances
    ensures r.Keys == balances.Keys
    ensures forall a :: a in balances && a != buyer && a != seller && (n.royaltyPercentage > 0.0 ==> a != n.royaltyRecipient) ==>
              r[a] == balances[a]
  {
    var paid := Move(balances, buyer, seller, price);
    if n.royaltyPercentage > 0.0 then Move(paid, seller, n.royaltyRecipient, Royalty(n, price))
    else paid
  }

  /** Settling a sale moves money between balances without creating or destroying any, whoever the parties are. */
  lemma {:induction false} SettleConserves(balances: map<string, real>, n: Nft, buyer: string, seller: string, price: real)
    requires buyer in balances && seller in balances
    requires n.royaltyPercentage > 0.0 ==> n.royaltyRecipient in balances
    ensures Total(Settle(balances, n, buyer, seller, price)) == Total(balances)
  {
    var paid := Move(balances, buyer, seller, price);
    MoveConserves(balances, buyer, seller, price);
    if n.royaltyPercentage > 0.0 {
      MoveConserves(paid, seller, n.royaltyRecipient, Royalty(n, price));
    }
  }

  /**
   * Between three distinct parties the buyer pays the price, the seller
   * keeps the price less the royalty and the recipient gets the royalty.
   */
  lemma SettlePays(balances: map<string, real>, n: Nft, buyer: string, seller: string, price: real)
    requires buyer in balances && seller in balances
    requires n.royaltyPercentage > 0.0 ==> n.royaltyRecipient in balances
    requires buyer != seller && buyer != n.royaltyRecipient && seller != n.royaltyRecipient
    ensures var r := Settle(balances, n, buyer, seller, price);
      var royalty := if n.royaltyPercentage > 0.0 then Royalty(n, price) else 0.0;
      && r[buyer] == balances[buyer] - price
      && r[seller] == balances[seller] + price - royalty
      && (n.royaltyPercentage > 0.0 ==> r[n.royaltyRecipient] == balances[n.royaltyRecipient] + royalty)
  {
  }

  /**
   * `buy_nft`. Without a buyable listing nothing changes and the result is
   * `false`. Otherwise the buyer pays the price to the named seller, the
   * token passes to the buyer only if that seller owns it, the royalty is
   * settled, and the listing is removed. The source indexes the balance
   * table directly for buyer, seller and (with a positive percentage)
   * royalty recipient, raising `KeyError` for a missing one; those entries
   * are required here.
   */
  function BuyNft(m: Marketplace, balances: map<string, real>, tokenId: string, buyer: string, seller: string): (r: (bool, Marketplace, map<string, real>))
    requires Buyable(m, balances, tokenId, buyer) ==> PartiesHaveBalances(m, balances, tokenId, buyer, seller)
    ensures r.0 <==> Buyable(m, balances, tokenId, buyer)
    ensures !r.0 ==> r.1 == m && r.2 == balances
    ensures r.0 ==>
      var n := m.nfts[tokenId];
      && r.2 == Settle(balances, n, buyer, seller, n.salePrice.value)
      && r.1.collections == m.collections && r.1.nfts.Keys == m.nfts.Keys
      && (forall t :: t in m.nfts && t != tokenId ==> r.1.nfts[t] == m.nfts[t])
      && r.1.nfts[tokenId] == n.(owner := if n.owner == seller then buyer else n.owner, salePrice := None)
  {
    if Buyable(m, balances, tokenId, buyer) then
      var price := m.nfts[tokenId].salePrice.value;
      var (_, m1) := TransferNft(m, tokenId, seller, buyer);
      var n := m1.nfts[tokenId];
      // The transfer changes only the owner, so the royalty terms read after it are the listed ones.
      (true, m1.(nfts := m1.nfts[tokenId := n.(salePrice := None)]), Settle(balances, m.nfts[tokenId], buyer, seller, price))
    else (false, m, balances)
  }

  /** A completed purchase conserves the sum of all balances, and the token can be listed again. */
  lemma BuyConserves(m: Marketplace, balances: map<string, real>, tokenId: string, buyer: string, seller: string, price: real)
    requires Buyable(m, balances, tokenId, buyer)
    requires PartiesHaveBalances(m, balances, tokenId, buyer, seller)
    ensures Total(BuyNft(m, balances, tokenId, buyer, seller).2) == Total(balances)
    ensures ListNftForSale(BuyNft(m, balances, tokenId, buyer, seller).1, tokenId, price).0
  {
    var n := m.nfts[tokenId];
    SettleConserves(balances, n, buyer, seller, n.salePrice.value);
  }

  /**
   * Buying from someone who does not own the token still moves the money,
   * but the token stays with its owner.
   */
  lemma BuyFromNonOwner(m: Marketplace, balances: map<string, real>, tokenId: string, buyer: string, seller: string)
    requires Buyable(m, balances, tokenId, buyer)
    requires PartiesHaveBalances(m, balances, tokenId, buyer, seller)
    requires m.nfts[tokenId].owner != seller
    ensures BuyNft(m, balances, tokenId, buyer, seller).0
    ensures BuyNft(m, balances, tokenId, buyer, seller).1.nfts[tokenId].owner == m.nfts[tokenId].owner
  {
  }
}
