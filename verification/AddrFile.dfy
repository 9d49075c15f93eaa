/** The file the address manager is saved to (src/addrman.cpp), as a stream of typed fields. */
module AddrFiles {

  import opened AddrBooks

  /** What is saved of an entry; the rest lives in memory only. */
  datatype SavedInfo = SavedInfo(
    addr: Service,
    nTime: int,
    nServices: set<nat>,
    source: nat,
    lastSuccess: int,
    nAttempts: int)

  datatype Token = Number(n: int) | Hash(h: nat) | Info(info: SavedInfo)

  datatype Error = EndOfData | Corrupted | UnsupportedVersion

  /** Reading gives a value and the rest of the stream, or fails. */
  datatype Reading<T> = Got(value: T, rest: seq<Token>) | Fail(error: Error)

  /** An entry of the new table: its bucket, and its place among the saved new entries. */
  datatype Entry = Entry(bucket: nat, index: int)

  datatype Header = Header(format: int, nKey: nat, nNew: nat, nTried: nat, nUBuckets: int)

  const FILE_FORMAT := 4
  const V1_DETERMINISTIC := 1
  const V2_ASMAP := 2
  const INCOMPATIBILITY_BASE := 32
  const BIT30 := 0x4000_0000

  /** Flips bit 30. */
  function FlipBit30(n: int): (r: int)
    ensures 0 <= n < 1073741824 ==> r == n + 1073741824
    ensures 1073741824 <= n < 2147483648 ==> r == n - 1073741824
  {
    if n / BIT30 % 2 == 1 then n - BIT30 else n + BIT30
  }

  lemma FlipTwice(n: int)
    ensures FlipBit30(FlipBit30(n)) == n
  {
  }

  function ReadNumber(s: seq<Token>): Reading<int> {
    if s != [] && s[0].Number? then Got(s[0].n, s[1..]) else Fail(EndOfData)
  }

  function ReadHash(s: seq<Token>): Reading<nat> {
    if s != [] && s[0].Hash? then Got(s[0].h, s[1..]) else Fail(EndOfData)
  }

  function ReadInfo(s: seq<Token>): Reading<SavedInfo> {
    if s != [] && s[0].Info? then Got(s[0].info, s[1..]) else Fail(EndOfData)
  }

  function ReadVersion(s: seq<Token>): Reading<int> {
    var format := ReadNumber(s);
    if format.Fail? then format
    else
      var compat := ReadNumber(format.rest);
      if compat.Fail? then compat
      else if compat.value < INCOMPATIBILITY_BASE then Fail(Corrupted)
      else if compat.value - INCOMPATIBILITY_BASE > FILE_FORMAT then Fail(UnsupportedVersion)
      else Got(format.value, compat.rest)
  }

  function ReadCounts(s: seq<Token>, format: int): Reading<Header> {
    var key := ReadHash(s);
    if key.Fail? then Fail(key.error)
    else
      var nNew := ReadNumber(key.rest);
      if nNew.Fail? then Fail(nNew.error)
      else
        var nTried := ReadNumber(nNew.rest);
        if nTried.Fail? then Fail(nTried.error)
        else
          var nU := ReadNumber(nTried.rest);
          if nU.Fail? then Fail(nU.error)
          else if nNew.value > NEW_BUCKET_COUNT * BUCKET_SIZE || nNew.value < 0 then Fail(Corrupted)
          else if nTried.value > TRIED_BUCKET_COUNT * BUCKET_SIZE || nTried.value < 0 then Fail(Corrupted)
          else
            var nUBuckets := if format >= V1_DETERMINISTIC then FlipBit30(nU.value) else nU.value;
            Got(Header(format, key.value, nNew.value, nTried.value, nUBuckets), nU.rest)
  }

  function ReadHeader(s: seq<Token>): Reading<Header> {
    var version := ReadVersion(s);
    if version.Fail? then Fail(version.error) else ReadCounts(version.rest, version.value)
  }

  /** What a file may begin with: a compatibility field of at least 32, and at most 36 for
      files this version can read, and counts the tables have room for. Since format 1 the
      number of buckets has bit 30 flipped. */
  lemma HeaderRead(format: int, compat: int, key: nat, nNew: int, nTried: int, nU: int, rest: seq<Token>)
    ensures ReadHeader([Number(format), Number(compat), Hash(key), Number(nNew), Number(nTried), Number(nU)] + rest) ==
            if compat < 32 then Fail(Corrupted)
            else if compat > 36 then Fail(UnsupportedVersion)
            else if nNew < 0 || nNew > 65536 || nTried < 0 || nTried > 16384 then Fail(Corrupted)
            else Got(Header(format, key, nNew, nTried, if format >= 1 then FlipBit30(nU) else nU), rest)
  {
    var s := [Number(format), Number(compat), Hash(key), Number(nNew), Number(nTried), Number(nU)] + rest;
    assert s[1..] == [Number(compat), Hash(key), Number(nNew), Number(nTried), Number(nU)] + rest;
    assert s[2..] == [Hash(key), Number(nNew), Number(nTried), Number(nU)] + rest;
    assert s[3..] == [Number(nNew), Number(nTried), Number(nU)] + rest;
    assert s[4..] == [Number(nTried), Number(nU)] + rest;
    assert s[5..] == [Number(nU)] + rest;
    assert s[6..] == rest;
  }

  /** A stream that ends before or differs in kind from these six fields is refused. */
  lemma HeaderCut(s: seq<Token>)
    ensures ReadHeader(s).Got? ==>
              |s| >= 6 && s[0].Number? && s[1].Number? && s[2].Hash? && s[3].Number? && s[4].Number? && s[5].Number?
              && ReadHeader(s).rest == s[6..]
  {
  }

  function Prepend<T>(xs: seq<T>, r: Reading<seq<T>>): Reading<seq<T>> {
    if r.Fail? then r else Got(xs + r.value, r.rest)
  }

  lemma PrependTwice<T>(xs: seq<T>, ys: seq<T>, r: Reading<seq<T>>)
    ensures Prepend(xs, Prepend(ys, r)) == Prepend(xs + ys, r)
    ensures Prepend([], r) == r
  {
    if r.Got? {
      assert xs + (ys + r.value) == xs + ys + r.value;
      assert [] + r.value == r.value;
    }
  }

  ghost function ReadInfos(s: seq<Token>, n: nat): Reading<seq<SavedInfo>> {
    if n == 0 then Got([], s)
    else
      var x := ReadInfo(s);
      if x.Fail? then Fail(x.error) else Prepend([x.value], ReadInfos(x.rest, n - 1))
  }

  /** Entries outside the saved new entries are skipped. */
  ghost function Kept(bucket: nat, index: int, nNew: nat): seq<Entry> {
    if 0 <= index < nNew then [Entry(bucket, index)] else []
  }

  ghost function ReadBucket(s: seq<Token>, bucket: nat, n: int, nNew: nat): Reading<seq<Entry>>
    decreases n
  {
    if n <= 0 then Got([], s)
    else
      var x := ReadNumber(s);
      if x.Fail? then Fail(x.error) else Prepend(Kept(bucket, x.value, nNew), ReadBucket(x.rest, bucket, n - 1, nNew))
  }

  ghost function ReadBuckets(s: seq<Token>, bucket: nat, nUBuckets: int, nNew: nat): Reading<seq<Entry>>
    decreases nUBuckets - bucket
  {
    if bucket >= nUBuckets then Got([], s)
    else
      var n := ReadNumber(s);
      if n.Fail? then Fail(n.error)
      else
        var x := ReadBucket(n.rest, bucket, n.value, nNew);
        if x.Fail? then x else Prepend(x.value, ReadBuckets(x.rest, bucket + 1, nUBuckets, nNew))
  }

  /** The asmap checksum, which older formats do not have. */
  function ReadChecksum(s: seq<Token>, format: int): Reading<nat> {
    if format >= V2_ASMAP then ReadHash(s) else Got(0, s)
  }

  /** All a file says. */
  datatype File = File(header: Header, news: seq<SavedInfo>, tried: seq<SavedInfo>, entries: seq<Entry>, checksum: nat)

  ghost function ReadFile(s: seq<Token>): Reading<File> {
    var h := ReadHeader(s);
    if h.Fail? then Fail(h.error)
    else
      var news := ReadInfos(h.rest, h.value.nNew);
      if news.Fail? then Fail(news.error)
      else
        var tried := ReadInfos(news.rest, h.value.nTried);
        if tried.Fail? then Fail(tried.error)
        else
          var entries := ReadBuckets(tried.rest, 0, h.value.nUBuckets, h.value.nNew);
          if entries.Fail? then Fail(entries.error)
          else
            var sum := ReadChecksum(entries.rest, h.value.format);
            if sum.Fail? then Fail(sum.error)
            else Got(File(h.value, news.value, tried.value, entries.value, sum.value), sum.rest)
  }

  // ----- writing -----

  function Saved(i: AddrInfo): SavedInfo {
    SavedInfo(i.addr, i.nTime, i.nServices, i.source, i.lastSuccess, i.nAttempts)
  }

  ghost predicate Known(b: Book, ids: seq<int>) {
    forall k | 0 <= k < |ids| :: ids[k] in b.info
  }

  ghost function SavedInfos(b: Book, ids: seq<int>): (r: seq<SavedInfo>)
    requires Known(b, ids)
    ensures |r| == |ids| && forall k | 0 <= k < |ids| :: r[k] == Saved(b.info[ids[k]])
  {
    if ids == [] then [] else [Saved(b.info[ids[0]])] + SavedInfos(b, ids[1..])
  }

  ghost function InfoTokens(xs: seq<SavedInfo>): seq<Token> {
    if xs == [] then [] else [Info(xs[0])] + InfoTokens(xs[1..])
  }

  ghost function NumberTokens(xs: seq<int>): seq<Token> {
    if xs == [] then [] else [Number(xs[0])] + NumberTokens(xs[1..])
  }

  ghost function IndexIn(ids: seq<int>, id: int): (k: int)
    ensures id in ids ==> 0 <= k < |ids| && ids[k] == id
    ensures id !in ids ==> k == |ids|
  {
    if ids == [] || ids[0] == id then 0 else 1 + IndexIn(ids[1..], id)
  }

  ghost predicate FullNews(b: Book) {
    forall s | InNew(s) :: s in b.news
  }

  /** What one slot of the new table contributes. */
  ghost function SlotIndex(b: Book, ids: seq<int>, s: Slot): seq<int>
    requires FullNews(b) && InNew(s)
  {
    if b.news[s] == -1 then [] else [IndexIn(ids, b.news[s])]
  }

  /** The indexes a bucket holds from position pos on. */
  ghost function BucketIndexes(b: Book, ids: seq<int>, bucket: nat, pos: nat): seq<int>
    requires FullNews(b) && bucket < NEW_BUCKET_COUNT && pos <= BUCKET_SIZE
    decreases BUCKET_SIZE - pos
  {
    if pos == BUCKET_SIZE then []
    else SlotIndex(b, ids, Slot(bucket, pos)) + BucketIndexes(b, ids, bucket, pos + 1)
  }

  ghost function BucketTokens(b: Book, ids: seq<int>, bucket: nat): seq<Token>
    requires FullNews(b) && bucket < NEW_BUCKET_COUNT
  {
    var xs := BucketIndexes(b, ids, bucket, 0);
    [Number(|xs|)] + NumberTokens(xs)
  }

  /** The buckets from one on. */
  ghost function TokensFrom(b: Book, ids: seq<int>, bucket: nat): seq<Token>
    requires FullNews(b) && bucket <= NEW_BUCKET_COUNT
    decreases NEW_BUCKET_COUNT - bucket
  {
    if bucket == NEW_BUCKET_COUNT then []
    else BucketTokens(b, ids, bucket) + TokensFrom(b, ids, bucket + 1)
  }

  ghost function HeaderTokens(b: Book): seq<Token> {
    [Number(FILE_FORMAT), Number(INCOMPATIBILITY_BASE + FILE_FORMAT), Hash(b.nKey), Number(b.nNew), Number(b.nTried),
     Number(FlipBit30(NEW_BUCKET_COUNT))]
  }

  /** The whole file, with the new entries and the tried entries in the orders given. */
  ghost function Encode(b: Book, newIds: seq<int>, triedIds: seq<int>, checksum: nat): seq<Token>
    requires FullNews(b) && Known(b, newIds) && Known(b, triedIds)
  {
    HeaderTokens(b)
    + (InfoTokens(SavedInfos(b, newIds))
       + (InfoTokens(SavedInfos(b, triedIds))
          + (TokensFrom(b, newIds, 0) + [Hash(checksum)])))
  }

  // ----- reading back what was written -----

  lemma FrontNumber(n: int, rest: seq<Token>)
    ensures ReadNumber([Number(n)] + rest) == Got(n, rest)
  {
    assert ([Number(n)] + rest)[1..] == rest;
  }

  lemma FrontHash(h: nat, rest: seq<Token>)
    ensures ReadHash([Hash(h)] + rest) == Got(h, rest)
  {
    assert ([Hash(h)] + rest)[1..] == rest;
  }

  lemma FrontInfo(x: SavedInfo, rest: seq<Token>)
    ensures ReadInfo([Info(x)] + rest) == Got(x, rest)
  {
    assert ([Info(x)] + rest)[1..] == rest;
  }

  lemma {:induction false} InfosReadBack(xs: seq<SavedInfo>, rest: seq<Token>)
    ensures ReadInfos(InfoTokens(xs) + rest, |xs|) == Got(xs, rest)
  {
    if xs == [] {
      assert InfoTokens(xs) + rest == rest;
    } else {
      hide ReadInfo;
      InfosReadBack(xs[1..], rest);
      var more := InfoTokens(xs[1..]) + rest;
      assert InfoTokens(xs) + rest == [Info(xs[0])] + more;
      FrontInfo(xs[0], more);
      assert xs == [xs[0]] + xs[1..];
    }
  }

  ghost function Entries(bucket: nat, xs: seq<int>): seq<Entry> {
    if xs == [] then [] else [Entry(bucket, xs[0])] + Entries(bucket, xs[1..])
  }

  ghost predicate InRange(xs: seq<int>, n: nat) {
    forall k | 0 <= k < |xs| :: 0 <= xs[k] < n
  }

  lemma {:induction false} BucketReadBack(xs: seq<int>, bucket: nat, nNew: nat, rest: seq<Token>)
    requires InRange(xs, nNew)
    ensures ReadBucket(NumberTokens(xs) + rest, bucket, |xs|, nNew) == Got(Entries(bucket, xs), rest)
  {
    if xs == [] {
      assert NumberTokens(xs) + rest == rest;
    } else {
      hide ReadNumber;
      BucketReadBack(xs[1..], bucket, nNew, rest);
      var more := NumberTokens(xs[1..]) + rest;
      assert NumberTokens(xs) + rest == [Number(xs[0])] + more;
      FrontNumber(xs[0], more);
    }
  }

  /** Every occupied slot holds one of the entries listed. */
  ghost predicate ListsHeld(b: Book, ids: seq<int>) {
    FullNews(b) && forall s | InNew(s) && b.news[s] != -1 :: b.news[s] in ids
  }

  lemma {:induction false} IndexesInRange(b: Book, ids: seq<int>, bucket: nat, pos: nat)
    requires ListsHeld(b, ids) && bucket < NEW_BUCKET_COUNT && pos <= BUCKET_SIZE
    ensures InRange(BucketIndexes(b, ids, bucket, pos), |ids|)
    decreases BUCKET_SIZE - pos
  {
    if pos < BUCKET_SIZE {
      IndexesInRange(b, ids, bucket, pos + 1);
      var s := Slot(bucket, pos);
      assert InNew(s);
      assert InRange(SlotIndex(b, ids, s), |ids|);
    }
  }

  /** The entries of the buckets from one on. */
  ghost function EntriesFrom(b: Book, ids: seq<int>, bucket: nat): seq<Entry>
    requires FullNews(b) && bucket <= NEW_BUCKET_COUNT
    decreases NEW_BUCKET_COUNT - bucket
  {
    if bucket == NEW_BUCKET_COUNT then []
    else Entries(bucket, BucketIndexes(b, ids, bucket, 0)) + EntriesFrom(b, ids, bucket + 1)
  }

  lemma {:induction false} BucketsReadBack(b: Book, ids: seq<int>, bucket: nat, rest: seq<Token>)
    requires ListsHeld(b, ids) && bucket <= NEW_BUCKET_COUNT
    ensures ReadBuckets(TokensFrom(b, ids, bucket) + rest, bucket, NEW_BUCKET_COUNT, |ids|)
         == Got(EntriesFrom(b, ids, bucket), rest)
    decreases NEW_BUCKET_COUNT - bucket
  {
    hide BucketIndexes, ListsHeld, NumberTokens, ReadNumber, ReadBucket, Entries, FullNews;
    Lists(b, ids);
    if bucket == NEW_BUCKET_COUNT {
      assert TokensFrom(b, ids, bucket) + rest == rest;
    } else {
      hide TokensFrom;
      var xs := BucketIndexes(b, ids, bucket, 0);
      var more := TokensFrom(b, ids, bucket + 1) + rest;
      IndexesInRange(b, ids, bucket, 0);
      BucketReadBack(xs, bucket, |ids|, more);
      BucketsReadBack(b, ids, bucket + 1, rest);
      TokensStep(b, ids, bucket, rest);
      FrontNumber(|xs|, NumberTokens(xs) + more);
    }
  }

  lemma TokensStep(b: Book, ids: seq<int>, bucket: nat, rest: seq<Token>)
    requires FullNews(b) && bucket < NEW_BUCKET_COUNT
    ensures var xs := BucketIndexes(b, ids, bucket, 0);
            TokensFrom(b, ids, bucket) + rest ==
            [Number(|xs|)] + (NumberTokens(xs) + (TokensFrom(b, ids, bucket + 1) + rest))
  {
    hide BucketIndexes, NumberTokens;
  }

  lemma Lists(b: Book, ids: seq<int>)
    requires ListsHeld(b, ids)
    ensures FullNews(b)
  {
  }

  lemma HeaderReadBack(b: Book, rest: seq<Token>)
    requires 0 <= b.nNew <= NEW_BUCKET_COUNT * BUCKET_SIZE && 0 <= b.nTried <= TRIED_BUCKET_COUNT * BUCKET_SIZE
    ensures ReadHeader(HeaderTokens(b) + rest)
         == Got(Header(FILE_FORMAT, b.nKey, b.nNew, b.nTried, NEW_BUCKET_COUNT), rest)
  {
    hide ReadNumber, ReadHash, FlipBit30;
    FlipTwice(NEW_BUCKET_COUNT);
    var s1 := [Number(FlipBit30(NEW_BUCKET_COUNT))] + rest;
    var s2 := [Number(b.nTried)] + s1;
    var s3 := [Number(b.nNew)] + s2;
    var s4 := [Hash(b.nKey)] + s3;
    var s5 := [Number(INCOMPATIBILITY_BASE + FILE_FORMAT)] + s4;
    assert HeaderTokens(b) + rest == [Number(FILE_FORMAT)] + s5;
    FrontNumber(FILE_FORMAT, s5);
    FrontNumber(INCOMPATIBILITY_BASE + FILE_FORMAT, s4);
    FrontHash(b.nKey, s3);
    FrontNumber(b.nNew, s2);
    FrontNumber(b.nTried, s1);
    FrontNumber(FlipBit30(NEW_BUCKET_COUNT), rest);
  }

  /** The file a book is saved as. */
  ghost function FileOf(b: Book, newIds: seq<int>, triedIds: seq<int>, checksum: nat): File
    requires FullNews(b) && Known(b, newIds) && Known(b, triedIds) && |newIds| == b.nNew && |triedIds| == b.nTried
  {
    File(Header(FILE_FORMAT, b.nKey, b.nNew, b.nTried, NEW_BUCKET_COUNT), SavedInfos(b, newIds),
         SavedInfos(b, triedIds),
         EntriesFrom(b, newIds, 0), checksum)
  }

  /** Reading undoes writing. */
  lemma FileReadBack(b: Book, newIds: seq<int>, triedIds: seq<int>, checksum: nat)
    requires ListsHeld(b, newIds) && Known(b, newIds) && Known(b, triedIds) && |newIds| == b.nNew
             && |triedIds| == b.nTried
    requires b.nNew <= NEW_BUCKET_COUNT * BUCKET_SIZE && b.nTried <= TRIED_BUCKET_COUNT * BUCKET_SIZE
    ensures ReadFile(Encode(b, newIds, triedIds, checksum)) == Got(FileOf(b, newIds, triedIds, checksum), [])
  {
    hide ReadHeader, HeaderTokens, ReadInfos, InfoTokens, ReadBuckets, TokensFrom, EntriesFrom, SavedInfos;
    var end := [Hash(checksum)];
    var buckets := TokensFrom(b, newIds, 0) + end;
    var news, tried := SavedInfos(b, newIds), SavedInfos(b, triedIds);
    HeaderReadBack(b, InfoTokens(news) + (InfoTokens(tried) + buckets));
    InfosReadBack(news, InfoTokens(tried) + buckets);
    InfosReadBack(tried, buckets);
    BucketsReadBack(b, newIds, 0, end);
    assert end[1..] == [];
  }
}
