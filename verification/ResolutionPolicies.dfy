/** Resolution limits, classification of media versions and policy lookup (src/resolution_policy.rs). */
module ResolutionPolicies {
  import opened Prelude
  import opened Text
  import opened Models

  /** From strictest to none, in the derived order of the source. */
  datatype ResolutionLimit = P480 | P720 | P1080 | P2160 | Unlimited {
    function Rank(): nat {
      match this
      case P480 => 0
      case P720 => 1
      case P1080 => 2
      case P2160 => 3
      case Unlimited => 4
    }

    predicate AtMost(other: ResolutionLimit) {
      Rank() <= other.Rank()
    }

    function Max(other: ResolutionLimit): ResolutionLimit {
      if AtMost(other) then other else this
    }
  }

  datatype ResolutionPolicy = ResolutionPolicy(
    limit: ResolutionLimit,
    maxBitrate: Option<I64>,
    hiddenCollections: seq<string>)
  {
    predicate IsUnrestricted() {
      limit == Unlimited
    }
  }

  /** `str::to_lowercase` as far as the literals of `ParseLimit` can tell: besides the ASCII
      capitals only the Kelvin sign maps to one of their letters. */
  function LowerLimitChar(c: char): char {
    if c == '\U{212A}' then 'k' else AsciiLower(c)
  }

  function ParseLimit(s: string): Option<ResolutionLimit> {
    var text := Map(LowerLimitChar, Trim(s));
    if text == "480" then Some(P480)
    else if text == "720" then Some(P720)
    else if text == "1080" || text == "2k" then Some(P1080)
    else if text == "4k" || text == "2160" then Some(P2160)
    else if text == "unlimited" || text == "" then Some(Unlimited)
    else None
  }

  function ClassifyDimensions(width: Option<I64>, height: Option<I64>): Option<ResolutionLimit> {
    if width.None? || height.None? || width.value <= 0 || height.value <= 0 then None
    else
      var (w, h) := (width.value, height.value);
      if w > 4096 || h > 2160 then None
      else if w > 1920 || h > 1080 then Some(P2160)
      else if w > 1280 || h > 720 then Some(P1080)
      else if w > 720 || h > 480 then Some(P720)
      else Some(P480)
  }

  function ClassifyText(media: Media): Option<ResolutionLimit> {
    if media.videoResolution.Some? then ParseLimit(media.videoResolution.value) else None
  }

  function Classify(media: Media): Option<ResolutionLimit> {
    match (ClassifyText(media), ClassifyDimensions(media.width, media.height))
    case (Some(a), Some(b)) => Some(a.Max(b))
    case (Some(a), None) => Some(a)
    case (None, Some(b)) => Some(b)
    case (None, None) => None
  }

  predicate MediaAllowed(media: Media, policy: ResolutionPolicy) {
    policy.IsUnrestricted() ||
    match Classify(media)
    case Some(limit) => limit.AtMost(policy.limit)
    case None => false
  }

  function AllowedBy(policy: ResolutionPolicy): Media -> bool {
    m => MediaAllowed(m, policy)
  }

  /** Disagreement is resolved against the viewer: both the label and the picture size have
      to pass, and at least one of them has to say something. */
  lemma AllowedNeedsEverySource(media: Media, policy: ResolutionPolicy)
    requires !policy.IsUnrestricted()
    ensures var text := ClassifyText(media);
            var dims := ClassifyDimensions(media.width, media.height);
            MediaAllowed(media, policy) <==>
              && (text.Some? || dims.Some?)
              && (text.Some? ==> text.value.AtMost(policy.limit))
              && (dims.Some? ==> dims.value.AtMost(policy.limit))
  {
  }

  /** The policy with the stricter limit. */
  function Stricter(a: ResolutionPolicy, b: ResolutionPolicy): ResolutionPolicy {
    if a.limit.AtMost(b.limit) then a else b
  }

  /** A version passes two policies exactly when it passes the stricter one. */
  lemma AllowedByBoth(media: Media, a: ResolutionPolicy, b: ResolutionPolicy)
    ensures MediaAllowed(media, Stricter(a, b)) <==> MediaAllowed(media, a) && MediaAllowed(media, b)
  {
  }

  /** The largest picture each limit is meant to admit. */
  function Frame(limit: ResolutionLimit): (int, int)
    requires limit != Unlimited
  {
    match limit
    case P480 => (720, 480)
    case P720 => (1280, 720)
    case P1080 => (1920, 1080)
    case P2160 => (4096, 2160)
  }

  /** A permitted version with known dimensions fits the frame of the limit exactly when it is
      not larger than 4K: beyond 4K only the label is consulted. */
  lemma PermittedFitsFrame(media: Media, policy: ResolutionPolicy)
    requires !policy.IsUnrestricted() && MediaAllowed(media, policy)
    requires media.width.Some? && media.height.Some? && media.width.value > 0 && media.height.value > 0
    ensures var (w, h) := (media.width.value, media.height.value);
            var frame := Frame(policy.limit);
            (w <= frame.0 && h <= frame.1) <==> (w <= 4096 && h <= 2160)
  {
  }

  /** An 8K file labelled 1080 passes a 1080 limit. */
  lemma MislabelledOversizePasses()
    ensures var media := Media(1, Some("1080"), Some(7680), Some(4320), None, []);
            var policy := ResolutionPolicy(P1080, None, []);
            MediaAllowed(media, policy) && Frame(policy.limit) == (1920, 1080)
  {
    LabelOfFullHd();
  }

  lemma LabelOfFullHd()
    ensures ParseLimit("1080") == Some(P1080)
  {
    TrimId("1080");
    assert Map(LowerLimitChar, "1080") == "1080";
  }

  // ----- what a label and a size mean -----

  /** The labels that pass each limit, in lower case and without the white space around them. */
  ghost function LabelsWithin(limit: ResolutionLimit): set<string>
    requires limit != Unlimited
  {
    match limit
    case P480 => {"480"}
    case P720 => {"480", "720"}
    case P1080 => {"480", "720", "1080", "2k"}
    case P2160 => {"480", "720", "1080", "2k", "2160", "4k"}
  }

  lemma LabelMeans(name: string)
    ensures var text := Map(LowerLimitChar, Trim(name));
            && (ParseLimit(name) == Some(P480) <==> text == "480")
            && (ParseLimit(name) == Some(P720) <==> text == "720")
            && (ParseLimit(name) == Some(P1080) <==> text in {"1080", "2k"})
            && (ParseLimit(name) == Some(P2160) <==> text in {"2160", "4k"})
            && (ParseLimit(name) == Some(Unlimited) <==> text in {"unlimited", ""})
  {
    LabelsDiffer();
  }

  lemma LabelsDiffer()
    ensures "480"[0] == '4' && "720"[0] == '7' && "1080"[0] == '1' && "2160"[0] == '2' && "unlimited"[0] == 'u'
    ensures "2k"[1] == 'k' && "4k"[1] == 'k' && "2160"[1] == '1' && "480"[1] == '8' && |"4k"| == |"2k"| == 2
  {
  }

  /** A version without dimensions is permitted if and only if its label is one of those within the limit;
      without a restriction everything is. */
  lemma LabelDecides(media: Media, policy: ResolutionPolicy)
    requires media.width.None? || media.height.None?
    ensures MediaAllowed(media, policy) <==>
              || policy.limit == Unlimited
              || (media.videoResolution.Some?
                  && Map(LowerLimitChar, Trim(media.videoResolution.value)) in LabelsWithin(policy.limit))
  {
    if media.videoResolution.Some? {
      LabelMeans(media.videoResolution.value);
      LabelsDiffer();
    }
  }

  /** A version without a label is permitted if and only if it has a size that fits the frame. */
  lemma SizeDecides(media: Media, policy: ResolutionPolicy)
    requires media.videoResolution.None? && media.width.Some? && media.height.Some?
    ensures MediaAllowed(media, policy) <==>
              || policy.limit == Unlimited
              || (0 < media.width.value <= Frame(policy.limit).0 && 0 < media.height.value <= Frame(policy.limit).1)
  {
  }

  datatype PolicyEntry = PolicyEntry(
    username: Option<string>,
    uuid: Option<string>,
    maxResolution: ResolutionLimit,
    maxBitrate: Option<I64>,
    visibleCollections: seq<string>)

  datatype UserIdentity = UserIdentity(id: I64, uuid: string, username: string)

  function Find<T>(p: T -> bool, s: seq<T>): (r: Option<T>)
    ensures r.Some? <==> exists i | 0 <= i < |s| :: p(s[i])
    ensures r.Some? ==> r.value in s && p(r.value)
  {
    if s == [] then None
    else if p(s[0]) then Some(s[0])
    else
      var rest := Find(p, s[1..]);
      assert s == [s[0]] + s[1..];
      rest
  }

  function MatchedEntry(entries: seq<PolicyEntry>, identity: UserIdentity): Option<PolicyEntry> {
    var byUuid := Find((e: PolicyEntry) => e.uuid == Some(identity.uuid), entries);
    if byUuid.Some? then byUuid
    else Find((e: PolicyEntry) => e.username == Some(identity.username), entries)
  }

  function ResolvePolicy(entries: seq<PolicyEntry>, defaultLimit: ResolutionLimit,
                         hidden: seq<string>, identity: UserIdentity): ResolutionPolicy {
    match MatchedEntry(entries, identity)
    case None => ResolutionPolicy(defaultLimit, None, hidden)
    case Some(e) =>
      ResolutionPolicy(e.maxResolution, e.maxBitrate,
                       Filter((title: string) => title !in e.visibleCollections, hidden))
  }

  // ----- what a configuration says -----

  /** Entry `i` is the first of the account's UUID. */
  ghost predicate FirstOfUuid(entries: seq<PolicyEntry>, uuid: string, i: nat) {
    i < |entries| && entries[i].uuid == Some(uuid) && forall j | 0 <= j < i :: entries[j].uuid != Some(uuid)
  }

  ghost predicate FirstOfName(entries: seq<PolicyEntry>, username: string, i: nat) {
    i < |entries| && entries[i].username == Some(username) && forall j | 0 <= j < i :: entries[j].username != Some(username)
  }

  /** The policy is that of the entry. */
  ghost predicate IsOfEntry(p: ResolutionPolicy, e: PolicyEntry, hidden: seq<string>) {
    && p.limit == e.maxResolution && p.maxBitrate == e.maxBitrate
    && forall title :: title in p.hiddenCollections <==> title in hidden && title !in e.visibleCollections
  }

  lemma {:induction false} FindsFirst<T>(p: T -> bool, s: seq<T>, i: nat)
    requires i < |s| && p(s[i]) && forall j | 0 <= j < i :: !p(s[j])
    ensures Find(p, s) == Some(s[i])
  {
    if i > 0 {
      FindsFirst(p, s[1..], i - 1);
    }
  }

  lemma OfEntry(e: PolicyEntry, hidden: seq<string>)
    ensures IsOfEntry(ResolutionPolicy(e.maxResolution, e.maxBitrate,
                        Filter((title: string) => title !in e.visibleCollections, hidden)), e, hidden)
  {
    FilterKeeps((title: string) => title !in e.visibleCollections, hidden);
  }

  /** The first entry of the account's UUID decides, or else the first of its name: the limit and the
      bitrate cap are its own, and of the hidden collections those that it names are shown. Without an
      entry the defaults hold. */
  lemma ResolvedByFirstEntry(entries: seq<PolicyEntry>, defaultLimit: ResolutionLimit, hidden: seq<string>,
                             identity: UserIdentity)
    ensures var p := ResolvePolicy(entries, defaultLimit, hidden, identity);
            && (forall i: nat | FirstOfUuid(entries, identity.uuid, i) :: IsOfEntry(p, entries[i], hidden))
            && ((forall e | e in entries :: e.uuid != Some(identity.uuid)) ==>
                  && (forall i: nat | FirstOfName(entries, identity.username, i) :: IsOfEntry(p, entries[i], hidden))
                  && ((forall e | e in entries :: e.username != Some(identity.username)) ==>
                        p == ResolutionPolicy(defaultLimit, None, hidden)))
  {
    var (byUuid, byName) := ((e: PolicyEntry) => e.uuid == Some(identity.uuid),
                             (e: PolicyEntry) => e.username == Some(identity.username));
    var p := ResolvePolicy(entries, defaultLimit, hidden, identity);
    forall i: nat | FirstOfUuid(entries, identity.uuid, i) ensures IsOfEntry(p, entries[i], hidden) {
      FindsFirst(byUuid, entries, i);
      OfEntry(entries[i], hidden);
    }
    if forall e | e in entries :: e.uuid != Some(identity.uuid) {
      forall i: nat | FirstOfName(entries, identity.username, i) ensures IsOfEntry(p, entries[i], hidden) {
        FindsFirst(byName, entries, i);
        OfEntry(entries[i], hidden);
      }
    }
  }

  ghost predicate DistinctAccounts(entries: seq<PolicyEntry>) {
    forall i, j | 0 <= i < |entries| && 0 <= j < |entries| && i != j ::
      && (entries[i].uuid.Some? ==> entries[i].uuid != entries[j].uuid)
      && (entries[i].username.Some? ==> entries[i].username != entries[j].username)
  }

  /** When no account is listed twice, the order of the configured rules does not matter. */
  lemma RuleOrderIrrelevant(a: seq<PolicyEntry>, b: seq<PolicyEntry>, defaultLimit: ResolutionLimit,
                            hidden: seq<string>, identity: UserIdentity)
    requires DistinctAccounts(a) && multiset(a) == multiset(b)
    ensures ResolvePolicy(a, defaultLimit, hidden, identity) == ResolvePolicy(b, defaultLimit, hidden, identity)
  {
    forall e ensures e in a <==> e in b {
      assert e in a <==> e in multiset(a);
      assert e in b <==> e in multiset(b);
    }
  }
}
