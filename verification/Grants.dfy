/**
 What an option is worth (adapters/reference/tftp_reference_engine.cpp): which
 value the server grants for what it was asked, which OACK the client accepts, and
 how the text of a value is read.
 */
module Grants {
  import opened Basics
  import opened Codec
  import opened DataPlane
  import opened Negotiation
  import Decimal

  // -------------------------------------------------- The text of a value

  predicate AllSpace(t: Text) {
    forall i :: 0 <= i < |t| ==> t[i] in {' ', '\t', '\n', '\r', 11 as char, 12 as char}
  }

  lemma {:induction false} SkipsSpace(spaces: Text, t: Text)
    requires AllSpace(spaces) && (t == [] || !AllSpace(t[..1]))
    ensures SkipSpace(spaces + t) == t
  {
    if spaces == [] {
      assert spaces + t == t;
      if t != [] {
        assert t[..1][0] == t[0];
      }
    } else {
      assert (spaces + t)[1..] == spaces[1..] + t;
      SkipsSpace(spaces[1..], t);
    }
  }

  /**
   std::stoul: space in front and anything behind the digits are ignored, a minus
   is taken modulo 2^64, and what does not fit 64 bits is refused.
   */
  lemma StoulReads(spaces: Text, sign: Text, digits: Text, rest: Text)
    requires AllSpace(spaces) && sign in {"", "+", "-"}
    requires digits != [] && Decimal.AllDigits(digits) && (rest == [] || !Decimal.IsDigit(rest[0]))
    ensures var value := Decimal.Value(digits);
      Stoul(spaces + (sign + (digits + rest))) ==
      if value >= WORDS then None
      else if sign == "-" then Some(if value == 0 then 0 else WORDS - value)
      else Some(value)
  {
    hide Decimal.Value;
    var t := sign + (digits + rest);
    assert t[..1][0] == t[0];
    assert sign == "" ==> t[0] == digits[0];
    SkipsSpace(spaces, t);
    hide SkipSpace;
    var s := if sign == "" then t else t[1..];
    assert s == digits + rest;
    Decimal.DigitRunUnique(s, |digits|);
    assert s[..|digits|] == digits;
  }

  /** And without a digit behind space and sign there is no value. */
  lemma StoulRefuses(spaces: Text, sign: Text, rest: Text)
    requires AllSpace(spaces) && sign in {"", "+", "-"} && (rest == [] || !Decimal.IsDigit(rest[0]))
    requires sign == "" && rest != [] ==> !AllSpace(rest[..1]) && rest[0] != '+' && rest[0] != '-'
    ensures Stoul(spaces + (sign + rest)) == None
  {
    var t := sign + rest;
    assert t != [] ==> t[..1][0] == t[0];
    SkipsSpace(spaces, t);
    hide SkipSpace;
    assert (if sign == "" then t else t[1..]) == rest;
  }

  // -------------------------------------------------------- One option granted

  /** The number an option's text stands for, cut to 32 bits. */
  function Asked(o: TftpOption): Option<nat> {
    match Stoul(o.value)
    case None => None
    case Some(n) => Some(n % 0x1_0000_0000)
  }

  lemma NamesExclude(o: TftpOption)
    ensures Named(o, BLKSIZE) ==> !Named(o, TIMEOUT) && !Named(o, TSIZE) && !Named(o, WINDOWSIZE)
    ensures Named(o, TIMEOUT) ==> !Named(o, TSIZE) && !Named(o, WINDOWSIZE)
    ensures Named(o, TSIZE) ==> !Named(o, WINDOWSIZE)
  {
    BlockSizeNameIsOwn("");
    TimeoutNameIsOwn("");
  }

  /** The server takes this option for one of that name. */
  predicate Heeds(config: EngineConfig, o: TftpOption, name: Text) {
    && Named(o, name)
    && (name == BLKSIZE ==> config.supportBlockSizeOption)
    && (name == TIMEOUT ==> config.supportTimeoutOption)
    && (name == TSIZE ==> config.supportTransferSizeOption)
    && (name == WINDOWSIZE ==> config.supportWindowSizeOption)
  }

  /** Its value decides: it can be read, and it is one the server does not decline. */
  predicate Decides(config: EngineConfig, fileSize: Option<U64>, o: TftpOption, name: Text) {
    && Heeds(config, o, name)
    && (Asked(o).Some? || (name == TSIZE && fileSize.Some?))
    && (name == TIMEOUT ==> 1 <= Asked(o).value <= 255)
    && (name == WINDOWSIZE ==> 1 <= Asked(o).value)
  }

  /** The last option of the list that decides for that name. */
  function LastDeciding(config: EngineConfig, fileSize: Option<U64>, options: seq<TftpOption>, name: Text): (r: Option<TftpOption>)
    ensures r.Some? ==> r.value in options && Decides(config, fileSize, r.value, name)
    ensures r.None? ==> forall i :: 0 <= i < |options| ==> !Decides(config, fileSize, options[i], name)
  {
    if options == [] then None
    else if Decides(config, fileSize, options[|options| - 1], name) then Some(options[|options| - 1])
    else LastDeciding(config, fileSize, options[..|options| - 1], name)
  }

  /** The nearest legal block size. */
  predicate IsNearestLegal(granted: nat, asked: nat) {
    && 8 <= granted <= 65464
    && (8 <= asked <= 65464 ==> granted == asked)
    && (asked < 8 ==> granted == 8)
    && (asked > 65464 ==> granted == 65464)
  }

  /** The asked-for window, as far as sixteen bits go. */
  predicate IsWithinAsked(granted: nat, asked: nat) {
    granted <= asked && (asked <= 65535 ==> granted == asked) && (asked > 65535 ==> granted == 65535)
  }

  lemma OneGrant(config: EngineConfig, fileSize: Option<U64>, g: Grant, o: TftpOption)
    ensures var p := GrantOption(config, fileSize, g, o).params;
      && (if Decides(config, fileSize, o, BLKSIZE) then IsNearestLegal(p.blockSize, Asked(o).value)
          else p.blockSize == g.params.blockSize)
      && (if Decides(config, fileSize, o, WINDOWSIZE) then IsWithinAsked(p.windowSize, Asked(o).value)
          else p.windowSize == g.params.windowSize)
      && p.timeoutSeconds == (if Decides(config, fileSize, o, TIMEOUT) then Some(Asked(o).value) else g.params.timeoutSeconds)
      && p.transferSize == (if !Decides(config, fileSize, o, TSIZE) then g.params.transferSize
                            else if fileSize.Some? then fileSize else Stoul(o.value))
  {
    hide Stoul, EqualsIgnoreCase, Decimal.Digits;
    NamesExclude(o);
  }

  /**
   What comes of a request: of each name the last option that can be read and is not
   declined decides; a block size becomes the nearest legal one, a window at most
   what was asked, a timeout just that, and the transfer size the file's on a read
   and the client's own on a write.
   */
  lemma {:induction false} LastOptionDecides(config: EngineConfig, fileSize: Option<U64>, params: NegotiatedParameters,
                                             options: seq<TftpOption>)
    ensures var p := GrantAll(config, fileSize, Grant(params, []), options).params;
      && (match LastDeciding(config, fileSize, options, BLKSIZE)
          case Some(o) => IsNearestLegal(p.blockSize, Asked(o).value)
          case None => p.blockSize == params.blockSize)
      && (match LastDeciding(config, fileSize, options, WINDOWSIZE)
          case Some(o) => IsWithinAsked(p.windowSize, Asked(o).value)
          case None => p.windowSize == params.windowSize)
      && (match LastDeciding(config, fileSize, options, TIMEOUT)
          case Some(o) => p.timeoutSeconds == Some(Asked(o).value)
          case None => p.timeoutSeconds == params.timeoutSeconds)
      && (match LastDeciding(config, fileSize, options, TSIZE)
          case Some(o) => p.transferSize == if fileSize.Some? then fileSize else Stoul(o.value)
          case None => p.transferSize == params.transferSize)
  {
    hide GrantOption, Decides, Asked, IsNearestLegal, IsWithinAsked, Stoul;
    if options != [] {
      var front, last := options[..|options| - 1], options[|options| - 1];
      LastOptionDecides(config, fileSize, params, front);
      OneGrant(config, fileSize, GrantAll(config, fileSize, Grant(params, []), front), last);
    }
  }

  // --------------------------------------------- What a legal request comes to

  lemma {:induction false} GrantsInTurn(config: EngineConfig, fileSize: Option<U64>, g: Grant,
                                        a: seq<TftpOption>, b: seq<TftpOption>)
    ensures GrantAll(config, fileSize, g, a + b) == GrantAll(config, fileSize, GrantAll(config, fileSize, g, a), b)
    decreases |b|
  {
    hide GrantOption;
    if b == [] {
      assert a + b == a;
    } else {
      assert (a + b)[..|a + b| - 1] == a + b[..|b| - 1];
      GrantsInTurn(config, fileSize, g, a, b[..|b| - 1]);
    }
  }

  lemma OwnOptions(config: EngineConfig, fileSize: Option<U64>, g: Grant, n: U64)
    ensures 8 <= n <= 65464 && config.supportBlockSizeOption ==>
              GrantOption(config, fileSize, g, TftpOption(BLKSIZE, Decimal.Digits(n)))
              == Grant(g.params.(blockSize := n), g.oack + [TftpOption(BLKSIZE, Decimal.Digits(n))])
    ensures 1 <= n <= 255 && config.supportTimeoutOption ==>
              GrantOption(config, fileSize, g, TftpOption(TIMEOUT, Decimal.Digits(n)))
              == Grant(g.params.(timeoutSeconds := Some(n)), g.oack + [TftpOption(TIMEOUT, Decimal.Digits(n))])
    ensures 1 <= n <= 65535 && config.supportWindowSizeOption ==>
              GrantOption(config, fileSize, g, TftpOption(WINDOWSIZE, Decimal.Digits(n)))
              == Grant(g.params.(windowSize := n), g.oack + [TftpOption(WINDOWSIZE, Decimal.Digits(n))])
    ensures config.supportTransferSizeOption ==>
              var size := if fileSize.Some? then fileSize.value else n;
              GrantOption(config, fileSize, g, TftpOption(TSIZE, Decimal.Digits(n)))
              == Grant(g.params.(transferSize := Some(size)), g.oack + [TftpOption(TSIZE, Decimal.Digits(size))])
  {
    hide Stoul, EqualsIgnoreCase, Decimal.Digits;
    StoulReadsDigits(n);
    NamesAreDistinct(Decimal.Digits(n));
    BlockSizeNameIsOwn(Decimal.Digits(n));
    TimeoutNameIsOwn(Decimal.Digits(n));
  }

  lemma Unsupported(config: EngineConfig, fileSize: Option<U64>, g: Grant, value: Text)
    ensures !config.supportBlockSizeOption ==> GrantOption(config, fileSize, g, TftpOption(BLKSIZE, value)) == g
    ensures !config.supportTimeoutOption ==> GrantOption(config, fileSize, g, TftpOption(TIMEOUT, value)) == g
    ensures !config.supportTransferSizeOption ==> GrantOption(config, fileSize, g, TftpOption(TSIZE, value)) == g
    ensures !config.supportWindowSizeOption ==> GrantOption(config, fileSize, g, TftpOption(WINDOWSIZE, value)) == g
  {
    hide Stoul, EqualsIgnoreCase;
    NamesAreDistinct(value);
    BlockSizeNameIsOwn(value);
    TimeoutNameIsOwn(value);
  }

  lemma ListOfOne(config: EngineConfig, fileSize: Option<U64>, g: Grant, o: TftpOption)
    ensures GrantAll(config, fileSize, g, [o]) == GrantOption(config, fileSize, g, o)
    ensures GrantAll(config, fileSize, g, []) == g
  {
    hide GrantOption;
    assert [o][..0] == [];
  }

  // An option in a list of its own, or no option, and what the grant becomes by it.

  function Wish(name: Text, value: Option<int>): seq<TftpOption>
    requires value.Some? ==> value.value >= 0
  {
    if value.Some? then [TftpOption(name, Decimal.Digits(value.value))] else []
  }

  lemma BlockSizeWish(config: EngineConfig, fileSize: Option<U64>, g: Grant, n: Option<U32>)
    requires n.Some? ==> 8 <= n.value <= 65464
    ensures var common := if config.supportBlockSizeOption then n else None;
      GrantAll(config, fileSize, g, Wish(BLKSIZE, n))
      == Grant(if common.Some? then g.params.(blockSize := common.value) else g.params, g.oack + Wish(BLKSIZE, common))
  {
    hide GrantOption, GrantAll, Decimal.Digits;
    var value := if n.Some? then n.value else 0;
    ListOfOne(config, fileSize, g, TftpOption(BLKSIZE, Decimal.Digits(value)));
    OwnOptions(config, fileSize, g, value);
    Unsupported(config, fileSize, g, Decimal.Digits(value));
  }

  lemma TimeoutWish(config: EngineConfig, fileSize: Option<U64>, g: Grant, n: Option<U32>)
    requires n.Some? ==> 1 <= n.value <= 255
    ensures var common := if config.supportTimeoutOption then n else None;
      GrantAll(config, fileSize, g, Wish(TIMEOUT, n))
      == Grant(if common.Some? then g.params.(timeoutSeconds := common) else g.params, g.oack + Wish(TIMEOUT, common))
  {
    hide GrantOption, GrantAll, Decimal.Digits;
    var value := if n.Some? then n.value else 0;
    ListOfOne(config, fileSize, g, TftpOption(TIMEOUT, Decimal.Digits(value)));
    OwnOptions(config, fileSize, g, value);
    Unsupported(config, fileSize, g, Decimal.Digits(value));
  }

  lemma SizeWish(config: EngineConfig, fileSize: Option<U64>, g: Grant, n: Option<U64>)
    ensures var common := if !config.supportTransferSizeOption || n.None? then None
                          else if fileSize.Some? then fileSize else n;
      GrantAll(config, fileSize, g, Wish(TSIZE, n))
      == Grant(if common.Some? then g.params.(transferSize := common) else g.params, g.oack + Wish(TSIZE, common))
  {
    hide GrantOption, GrantAll, Decimal.Digits;
    var value := if n.Some? then n.value else 0;
    ListOfOne(config, fileSize, g, TftpOption(TSIZE, Decimal.Digits(value)));
    OwnOptions(config, fileSize, g, value);
    Unsupported(config, fileSize, g, Decimal.Digits(value));
  }

  lemma WindowWish(config: EngineConfig, fileSize: Option<U64>, g: Grant, n: Option<U16>)
    requires n.Some? ==> 1 <= n.value
    ensures var common := if config.supportWindowSizeOption then n else None;
      GrantAll(config, fileSize, g, Wish(WINDOWSIZE, n))
      == Grant(if common.Some? then g.params.(windowSize := common.value) else g.params, g.oack + Wish(WINDOWSIZE, common))
  {
    hide GrantOption, GrantAll, Decimal.Digits;
    var value := if n.Some? then n.value else 0;
    ListOfOne(config, fileSize, g, TftpOption(WINDOWSIZE, Decimal.Digits(value)));
    OwnOptions(config, fileSize, g, value);
    Unsupported(config, fileSize, g, Decimal.Digits(value));
  }

  predicate LegalRequest(r: ClientRequestedOptions) {
    && (r.blockSize.Some? ==> 8 <= r.blockSize.value <= 65464)
    && (r.timeoutSeconds.Some? ==> 1 <= r.timeoutSeconds.value <= 255)
    && (r.windowSize.Some? ==> 1 <= r.windowSize.value)
  }

  /** Those of the wishes that this end supports. */
  function Supported(config: EngineConfig, r: ClientRequestedOptions): ClientRequestedOptions {
    ClientRequestedOptions(
      if config.supportOptionNegotiation && config.supportBlockSizeOption then r.blockSize else None,
      if config.supportOptionNegotiation && config.supportTimeoutOption then r.timeoutSeconds else None,
      if config.supportOptionNegotiation && config.supportTransferSizeOption then r.transferSize else None,
      if config.supportOptionNegotiation && config.supportWindowSizeOption then r.windowSize else None)
  }

  /** The transfer size is the file's where the server knows the file. */
  function Sized(r: ClientRequestedOptions, fileSize: Option<U64>): ClientRequestedOptions {
    if r.transferSize.Some? && fileSize.Some? then r.(transferSize := fileSize) else r
  }

  /** An option for each wish, in the client's order. */
  function OptionsFor(r: ClientRequestedOptions): seq<TftpOption> {
    Wish("blksize", r.blockSize) + Wish("timeout", r.timeoutSeconds) + Wish("tsize", r.transferSize)
    + Wish("windowsize", r.windowSize)
  }

  lemma WishesInTurn(server: EngineConfig, fileSize: Option<U64>, params: NegotiatedParameters, own: ClientRequestedOptions)
    returns (g: Grant)
    requires LegalRequest(own) && server.supportOptionNegotiation
    ensures g == GrantAll(server, fileSize, Grant(params, []), OptionsFor(own))
    ensures var granted := Sized(Supported(server, own), fileSize);
      && g.params.blockSize == (if granted.blockSize.Some? then granted.blockSize.value else params.blockSize)
      && g.params.windowSize == (if granted.windowSize.Some? then granted.windowSize.value else params.windowSize)
      && g.params.timeoutSeconds == (if granted.timeoutSeconds.Some? then granted.timeoutSeconds else params.timeoutSeconds)
      && g.params.transferSize == (if granted.transferSize.Some? then granted.transferSize else params.transferSize)
      && g.oack == OptionsFor(granted)
  {
    hide GrantOption, GrantAll, Wish;
    var g0 := Grant(params, []);
    var a, b := Wish(BLKSIZE, own.blockSize), Wish(TIMEOUT, own.timeoutSeconds);
    var c, d := Wish(TSIZE, own.transferSize), Wish(WINDOWSIZE, own.windowSize);
    GrantsInTurn(server, fileSize, g0, a + b + c, d);
    GrantsInTurn(server, fileSize, g0, a + b, c);
    GrantsInTurn(server, fileSize, g0, a, b);
    BlockSizeWish(server, fileSize, g0, own.blockSize);
    var g1 := GrantAll(server, fileSize, g0, a);
    TimeoutWish(server, fileSize, g1, own.timeoutSeconds);
    var g2 := GrantAll(server, fileSize, g1, b);
    SizeWish(server, fileSize, g2, own.transferSize);
    var g3 := GrantAll(server, fileSize, g2, c);
    WindowWish(server, fileSize, g3, own.windowSize);
    g := GrantAll(server, fileSize, g3, d);
    hide LegalRequest;
    var granted := Sized(Supported(server, own), fileSize);
    assert g1.oack == Wish(BLKSIZE, granted.blockSize);
  }

  /**
   A client that asks for legal values of a server gets exactly those that both
   support, and the OACK names them, in the same order, and nothing else.
   */
  lemma LegalRequestIsGranted(client: EngineConfig, server: EngineConfig, fileSize: Option<U64>,
                              requested: ClientRequestedOptions, params: NegotiatedParameters)
    requires LegalRequest(requested)
    ensures var g := Negotiate(server, fileSize, params, BuildRequestedOptionList(requested, client));
      var granted := Sized(Supported(server, Supported(client, requested)), fileSize);
      && g.params.blockSize == (if granted.blockSize.Some? then granted.blockSize.value else params.blockSize)
      && g.params.windowSize == (if granted.windowSize.Some? then granted.windowSize.value else params.windowSize)
      && g.params.timeoutSeconds == (if granted.timeoutSeconds.Some? then granted.timeoutSeconds else params.timeoutSeconds)
      && g.params.transferSize == (if granted.transferSize.Some? then granted.transferSize else params.transferSize)
      && g.oack == OptionsFor(granted)
  {
    ListIsWishes(requested, client);
    hide GrantAll, OptionsFor, BuildRequestedOptionList;
    if server.supportOptionNegotiation {
      var _ := WishesInTurn(server, fileSize, params, Supported(client, requested));
    } else {
      NoWishes();
    }
  }

  lemma ListIsWishes(r: ClientRequestedOptions, client: EngineConfig)
    ensures BuildRequestedOptionList(r, client) == OptionsFor(Supported(client, r))
  {
    hide Decimal.Digits;
  }

  lemma NoWishes()
    ensures OptionsFor(ClientRequestedOptions(None, None, None, None)) == []
  {
  }

  // ------------------------------------------------- The OACK a client takes

  /** One of the four options, and one the client asked for. */
  predicate AskedFor(requested: ClientRequestedOptions, o: TftpOption) {
    || (Named(o, "blksize") && requested.blockSize.Some?)
    || (Named(o, "timeout") && requested.timeoutSeconds.Some?)
    || (Named(o, "tsize") && requested.transferSize.Some?)
    || (Named(o, "windowsize") && requested.windowSize.Some?)
  }

  lemma OneEntry(requested: ClientRequestedOptions, params: NegotiatedParameters, o: TftpOption)
    ensures var outcome := ApplyOption(requested, params, o);
      && (outcome.Rejected? <==> !AskedFor(requested, o))
      && (outcome.Threw? <==> AskedFor(requested, o) && Stoul(o.value).None?)
  {
    hide Stoul, EqualsIgnoreCase;
    NamesExclude(o);
  }

  predicate Sound(requested: ClientRequestedOptions, o: TftpOption) {
    AskedFor(requested, o) && Stoul(o.value).Some?
  }

  /** Where the first entry stands that the client did not ask for or cannot read. */
  function FirstFault(requested: ClientRequestedOptions, oack: seq<TftpOption>): (n: nat)
    ensures n <= |oack|
  {
    if oack == [] || !Sound(requested, oack[0]) then 0 else 1 + FirstFault(requested, oack[1..])
  }

  lemma {:induction false} FaultGrows(requested: ClientRequestedOptions, front: seq<TftpOption>, last: TftpOption)
    ensures FirstFault(requested, front + [last]) ==
            if FirstFault(requested, front) < |front| then FirstFault(requested, front)
            else if Sound(requested, last) then |front| + 1 else |front|
  {
    hide Sound;
    if front == [] {
      assert [last][1..] == [] && front + [last] == [last];
    } else {
      assert (front + [last])[1..] == front[1..] + [last];
      FaultGrows(requested, front[1..], last);
    }
  }

  /**
   RFC 2347 section 2: the client takes an OACK exactly if it asked for every option
   in it and can read every value; otherwise the first entry at fault decides
   between ERROR 8 and the exception.
   */
  lemma {:induction false} OackAcceptedIff(requested: ClientRequestedOptions, params: NegotiatedParameters, oack: seq<TftpOption>)
    ensures var outcome, fault := ApplyOack(requested, params, oack), FirstFault(requested, oack);
      && (outcome.Accepted? <==> fault == |oack|)
      && (outcome.Rejected? <==> fault < |oack| && !AskedFor(requested, oack[fault]))
      && (outcome.Threw? <==> fault < |oack| && AskedFor(requested, oack[fault]))
  {
    hide ApplyOption, AskedFor, Stoul;
    if oack != [] {
      var front, last := oack[..|oack| - 1], oack[|oack| - 1];
      OackAcceptedIff(requested, params, front);
      assert oack == front + [last];
      FaultGrows(requested, front, last);
      hide FirstFault;
      var before := ApplyOack(requested, params, front);
      if before.Accepted? {
        OneEntry(requested, before.params, last);
      }
    }
  }
}
