/**
 Option negotiation between client and server (RFC 2347, 2348, 2349 and 7440;
 adapters/reference/tftp_reference_engine.cpp): what the client asks for, what
 the server grants, and what the client makes of the grant.
 */
module Negotiation {
  import opened Basics
  import opened Codec
  import opened DataPlane
  import Decimal

  datatype NegotiatedParameters = NegotiatedParameters(
    blockSize: U32,
    windowSize: U16,
    timeoutSeconds: Option<U32>,
    transferSize: Option<U64>)

  datatype ClientRequestedOptions = ClientRequestedOptions(
    blockSize: Option<U32>,
    timeoutSeconds: Option<U32>,
    transferSize: Option<U64>,
    windowSize: Option<U16>)

  const BLKSIZE: Text := "blksize"
  const TIMEOUT: Text := "timeout"
  const TSIZE: Text := "tsize"
  const WINDOWSIZE: Text := "windowsize"

  const MINIMUM_BLOCK_SIZE := 8
  const MAXIMUM_BLOCK_SIZE := 65464

  // ------------------------------------------------------ std::stoul, stoull

  predicate IsSpace(c: char) {
    c == ' ' || 9 <= c as int <= 13
  }

  function SkipSpace(t: Text): Text {
    if t != [] && IsSpace(t[0]) then SkipSpace(t[1..]) else t
  }

  /** Leading space, an optional sign, then digits; whatever follows is ignored. */
  function Stoul(t: Text): Option<U64> {
    var s := SkipSpace(t);
    var negative := s != [] && s[0] == '-';
    var digits := if s != [] && (s[0] == '-' || s[0] == '+') then s[1..] else s;
    var n := Decimal.DigitRun(digits);
    if n == 0 then None  // std::invalid_argument
    else
      var value := Decimal.Value(digits[..n]);
      if value >= WORDS then None  // std::out_of_range
      else Some(if negative then (WORDS - value) % WORDS else value)
  }

  lemma StoulReadsDigits(n: U64)
    ensures Stoul(Decimal.Digits(n)) == Some(n)
  {
    var t := Decimal.Digits(n);
    assert Decimal.IsDigit(t[0]);
    assert SkipSpace(t) == t;
    Decimal.DigitRunUnique(t, |t|);
    assert t[..|t|] == t;
    Decimal.ValueOfDigits(n);
  }

  // ---------------------------------------------------------- Server's grant

  function ClampBlockSize(requested: U32): U32 {
    Min(Max(requested, MINIMUM_BLOCK_SIZE), MAXIMUM_BLOCK_SIZE)
  }

  datatype Grant = Grant(params: NegotiatedParameters, oack: seq<TftpOption>)

  predicate Named(o: TftpOption, name: Text) {
    EqualsIgnoreCase(o.name, name)
  }

  function Granted(g: Grant, params: NegotiatedParameters, name: Text, value: Text): Grant {
    Grant(params, g.oack + [TftpOption(name, value)])
  }

  /** One option of the request: granted, clamped, declined or ignored. */
  function GrantOption(config: EngineConfig, fileSize: Option<U64>, g: Grant, o: TftpOption): Grant {
    var requested := if Stoul(o.value).Some? then Stoul(o.value).value % 0x1_0000_0000 else 0;
    if Named(o, BLKSIZE) && config.supportBlockSizeOption then
      if Stoul(o.value).None? then g
      else
        var accepted := ClampBlockSize(requested);
        Granted(g, g.params.(blockSize := accepted), BLKSIZE, Decimal.Digits(accepted))
    else if Named(o, TIMEOUT) && config.supportTimeoutOption then
      if Stoul(o.value).None? || requested < 1 || requested > 255 then g
      else Granted(g, g.params.(timeoutSeconds := Some(requested)), TIMEOUT, Decimal.Digits(requested))
    else if Named(o, TSIZE) && config.supportTransferSizeOption then
      if fileSize.Some? then
        Granted(g, g.params.(transferSize := fileSize), TSIZE, Decimal.Digits(fileSize.value))
      else if Stoul(o.value).None? then g
      else Granted(g, g.params.(transferSize := Stoul(o.value)), TSIZE, o.value)
    else if Named(o, WINDOWSIZE) && config.supportWindowSizeOption then
      if Stoul(o.value).None? || requested < 1 then g
      else
        var accepted := Min(requested, 65535);
        Granted(g, g.params.(windowSize := accepted), WINDOWSIZE, Decimal.Digits(accepted))
    else g
  }

  /** The options in request order, each applied to what came before. */
  function GrantAll(config: EngineConfig, fileSize: Option<U64>, g: Grant, options: seq<TftpOption>): Grant {
    if options == [] then g
    else GrantOption(config, fileSize, GrantAll(config, fileSize, g, options[..|options| - 1]),
                     options[|options| - 1])
  }

  function Defaults(config: EngineConfig): NegotiatedParameters {
    NegotiatedParameters(config.defaultBlockSize, 1, None, None)
  }

  /** The server's parameters and its OACK, empty when it grants nothing. */
  function Negotiate(config: EngineConfig, fileSize: Option<U64>, params: NegotiatedParameters,
                     options: seq<TftpOption>): Grant {
    if config.supportOptionNegotiation then GrantAll(config, fileSize, Grant(params, []), options)
    else Grant(params, [])
  }

  method NegotiateServerOptions(options: seq<TftpOption>, config: EngineConfig, fileSize: Option<U64>,
                                defaults: NegotiatedParameters)
    returns (params: NegotiatedParameters, oackOptions: seq<TftpOption>)
    ensures Grant(params, oackOptions) == Negotiate(config, fileSize, defaults, options)
  {
    hide Stoul, EqualsIgnoreCase;
    params, oackOptions := defaults, [];
    if !config.supportOptionNegotiation {
      return;
    }
    for i := 0 to |options|
      invariant Grant(params, oackOptions) == GrantAll(config, fileSize, Grant(defaults, []), options[..i])
    {
      var option := options[i];
      assert options[..i + 1][..i] == options[..i];
      var parsed := Stoul(option.value);
      var requested := if parsed.Some? then parsed.value % 0x1_0000_0000 else 0;
      if EqualsIgnoreCase(option.name, BLKSIZE) && config.supportBlockSizeOption {
        if parsed.None? {
          continue;
        }
        var accepted := ClampBlockSize(requested);
        params := params.(blockSize := accepted);
        oackOptions := oackOptions + [TftpOption(BLKSIZE, Decimal.Digits(accepted))];
      } else if EqualsIgnoreCase(option.name, TIMEOUT) && config.supportTimeoutOption {
        if parsed.None? || requested < 1 || requested > 255 {
          continue;
        }
        params := params.(timeoutSeconds := Some(requested));
        oackOptions := oackOptions + [TftpOption(TIMEOUT, Decimal.Digits(requested))];
      } else if EqualsIgnoreCase(option.name, TSIZE) && config.supportTransferSizeOption {
        if fileSize.Some? {
          params := params.(transferSize := fileSize);
          oackOptions := oackOptions + [TftpOption(TSIZE, Decimal.Digits(fileSize.value))];
        } else if parsed.Some? {
          params := params.(transferSize := parsed);
          oackOptions := oackOptions + [TftpOption(TSIZE, option.value)];
        }
      } else if EqualsIgnoreCase(option.name, WINDOWSIZE) && config.supportWindowSizeOption {
        if parsed.None? || requested < 1 {
          continue;
        }
        var accepted: U16 := Min(requested, 65535);
        params := params.(windowSize := accepted);
        oackOptions := oackOptions + [TftpOption(WINDOWSIZE, Decimal.Digits(accepted))];
      }
    }
    assert options[..|options|] == options;
  }

  // -------------------------------------------------------- Client's reading

  /** Accepted, or aborted with ERROR 8, or a value std::stoul throws on. */
  datatype OackOutcome =
    | Accepted(params: NegotiatedParameters)
    | Rejected(reason: string)
    | Threw

  function ApplyOption(requested: ClientRequestedOptions, params: NegotiatedParameters, o: TftpOption): OackOutcome {
    var value := Stoul(o.value);
    if Named(o, BLKSIZE) then
      if requested.blockSize.None? then Rejected("server OACKed unrequested blksize")
      else if value.None? then Threw
      else Accepted(params.(blockSize := value.value % 0x1_0000_0000))
    else if Named(o, TIMEOUT) then
      if requested.timeoutSeconds.None? then Rejected("server OACKed unrequested timeout")
      else if value.None? then Threw
      else Accepted(params.(timeoutSeconds := Some(value.value % 0x1_0000_0000)))
    else if Named(o, TSIZE) then
      if requested.transferSize.None? then Rejected("server OACKed unrequested tsize")
      else if value.None? then Threw
      else Accepted(params.(transferSize := value))
    else if Named(o, WINDOWSIZE) then
      if requested.windowSize.None? then Rejected("server OACKed unrequested windowsize")
      else if value.None? then Threw
      else Accepted(params.(windowSize := value.value % 0x1_0000))
    else Rejected("server OACKed unknown option " + o.name)
  }

  function ApplyOack(requested: ClientRequestedOptions, params: NegotiatedParameters, oack: seq<TftpOption>): OackOutcome {
    if oack == [] then Accepted(params)
    else
      match ApplyOack(requested, params, oack[..|oack| - 1])
      case Accepted(sofar) => ApplyOption(requested, sofar, oack[|oack| - 1])
      case failed => failed
  }

  lemma {:induction false} FailurePersists(requested: ClientRequestedOptions, params: NegotiatedParameters,
                                           oack: seq<TftpOption>, n: nat)
    requires n <= |oack| && !ApplyOack(requested, params, oack[..n]).Accepted?
    ensures ApplyOack(requested, params, oack) == ApplyOack(requested, params, oack[..n])
  {
    hide ApplyOption;
    if n == |oack| {
      assert oack[..n] == oack;
    } else {
      var shorter := oack[..|oack| - 1];
      assert shorter[..n] == oack[..n];
      FailurePersists(requested, params, shorter, n);
    }
  }

  method ApplyOackToClient(oack: seq<TftpOption>, requested: ClientRequestedOptions,
                           initial: NegotiatedParameters) returns (outcome: OackOutcome)
    ensures outcome == ApplyOack(requested, initial, oack)
  {
    hide ApplyOption;
    var params := initial;
    for i := 0 to |oack|
      invariant ApplyOack(requested, initial, oack[..i]) == Accepted(params)
    {
      assert oack[..i + 1][..i] == oack[..i];
      var step := ApplyOption(requested, params, oack[i]);
      if !step.Accepted? {
        FailurePersists(requested, initial, oack, i + 1);
        return step;
      }
      params := step.params;
    }
    assert oack[..|oack|] == oack;
    return Accepted(params);
  }

  // ---------------------------------------------------------- Client's request

  function BuildRequestedOptionList(requested: ClientRequestedOptions, config: EngineConfig): seq<TftpOption> {
    if !config.supportOptionNegotiation then []
    else
      (if requested.blockSize.Some? && config.supportBlockSizeOption then
         [TftpOption(BLKSIZE, Decimal.Digits(requested.blockSize.value))] else [])
      + (if requested.timeoutSeconds.Some? && config.supportTimeoutOption then
           [TftpOption(TIMEOUT, Decimal.Digits(requested.timeoutSeconds.value))] else [])
      + (if requested.transferSize.Some? && config.supportTransferSizeOption then
           [TftpOption(TSIZE, Decimal.Digits(requested.transferSize.value))] else [])
      + (if requested.windowSize.Some? && config.supportWindowSizeOption then
           [TftpOption(WINDOWSIZE, Decimal.Digits(requested.windowSize.value))] else [])
  }

  // ------------------------------------------------------------- Agreement

  /** Every known option in the list is one the client asked for. */
  ghost predicate Requested(options: seq<TftpOption>, requested: ClientRequestedOptions) {
    forall i :: 0 <= i < |options| ==> RequestedOne(options[i], requested)
  }

  predicate RequestedOne(o: TftpOption, requested: ClientRequestedOptions) {
    && (Named(o, BLKSIZE) ==> requested.blockSize.Some?)
    && (Named(o, TIMEOUT) ==> requested.timeoutSeconds.Some?)
    && (Named(o, TSIZE) ==> requested.transferSize.Some?)
    && (Named(o, WINDOWSIZE) ==> requested.windowSize.Some?)
  }

  lemma NamesAreDistinct(value: Text)
    ensures Named(TftpOption(BLKSIZE, value), BLKSIZE)
    ensures Named(TftpOption(TIMEOUT, value), TIMEOUT) && !Named(TftpOption(TIMEOUT, value), BLKSIZE)
    ensures Named(TftpOption(TSIZE, value), TSIZE)
    ensures !Named(TftpOption(TSIZE, value), BLKSIZE) && !Named(TftpOption(TSIZE, value), TIMEOUT)
    ensures Named(TftpOption(WINDOWSIZE, value), WINDOWSIZE)
    ensures !Named(TftpOption(WINDOWSIZE, value), BLKSIZE) && !Named(TftpOption(WINDOWSIZE, value), TIMEOUT)
    ensures !Named(TftpOption(WINDOWSIZE, value), TSIZE)
  {
    assert Lowered(TIMEOUT)[0] != Lowered(BLKSIZE)[0];
    assert |TSIZE| != |BLKSIZE| && |TSIZE| != |TIMEOUT|;
    assert |WINDOWSIZE| != |BLKSIZE| && |WINDOWSIZE| != |TIMEOUT| && |WINDOWSIZE| != |TSIZE|;
  }

  /** What the server puts in force for one option, the client reads back from the OACK. */
  lemma OptionAgreement(config: EngineConfig, fileSize: Option<U64>, requested: ClientRequestedOptions,
                        g: Grant, o: TftpOption)
    requires RequestedOne(o, requested)
    ensures var g' := GrantOption(config, fileSize, g, o);
      g' == g || (|g'.oack| == |g.oack| + 1 && g'.oack[..|g.oack|] == g.oack &&
                  ApplyOption(requested, g.params, g'.oack[|g.oack|]) == Accepted(g'.params))
  {
    hide EqualsIgnoreCase, Stoul, ClampBlockSize, Decimal.Digits;
    var g' := GrantOption(config, fileSize, g, o);
    if g' != g {
      var entry := g'.oack[|g.oack|];
      NamesAreDistinct(entry.value);
      if Stoul(o.value).Some? {
        var n := Stoul(o.value).value % 0x1_0000_0000;
        StoulReadsDigits(ClampBlockSize(n));
        StoulReadsDigits(n);
        StoulReadsDigits(Min(n, 65535));
      }
      if fileSize.Some? {
        StoulReadsDigits(fileSize.value);
      }
    }
  }

  /**
   Option agreement: whatever options arrive, in any case, repeated or
   unreadable, a client that asked for them accepts the server's OACK and ends
   with exactly the server's parameters.
   */
  lemma {:induction false} OptionsAgree(config: EngineConfig, fileSize: Option<U64>, requested: ClientRequestedOptions,
                                        params: NegotiatedParameters, options: seq<TftpOption>)
    requires Requested(options, requested)
    ensures var g := GrantAll(config, fileSize, Grant(params, []), options);
      ApplyOack(requested, params, g.oack) == Accepted(g.params)
  {
    hide GrantOption, ApplyOption, RequestedOne;
    if options != [] {
      var last := |options| - 1;
      OptionsAgree(config, fileSize, requested, params, options[..last]);
      OptionAgreement(config, fileSize, requested, GrantAll(config, fileSize, Grant(params, []), options[..last]),
                      options[last]);
    }
  }

  lemma OwnOptionIsRequested(requested: ClientRequestedOptions, value: Text)
    ensures requested.blockSize.Some? ==> Requested([TftpOption(BLKSIZE, value)], requested)
    ensures requested.timeoutSeconds.Some? ==> Requested([TftpOption(TIMEOUT, value)], requested)
    ensures requested.transferSize.Some? ==> Requested([TftpOption(TSIZE, value)], requested)
    ensures requested.windowSize.Some? ==> Requested([TftpOption(WINDOWSIZE, value)], requested)
  {
    hide EqualsIgnoreCase;
    NamesAreDistinct(value);
    BlockSizeNameIsOwn(value);
    TimeoutNameIsOwn(value);
  }

  lemma RequestedJoin(a: seq<TftpOption>, b: seq<TftpOption>, requested: ClientRequestedOptions)
    requires Requested(a, requested) && Requested(b, requested)
    ensures Requested(a + b, requested)
  {
    hide RequestedOne;
  }

  lemma NothingIsRequested(requested: ClientRequestedOptions)
    ensures Requested([], requested)
  {
  }

  lemma BuiltListIsRequested(requested: ClientRequestedOptions, config: EngineConfig)
    ensures Requested(BuildRequestedOptionList(requested, config), requested)
  {
    hide Requested, Decimal.Digits;
    forall value: Text
      ensures requested.blockSize.Some? ==> Requested([TftpOption(BLKSIZE, value)], requested)
      ensures requested.timeoutSeconds.Some? ==> Requested([TftpOption(TIMEOUT, value)], requested)
      ensures requested.transferSize.Some? ==> Requested([TftpOption(TSIZE, value)], requested)
      ensures requested.windowSize.Some? ==> Requested([TftpOption(WINDOWSIZE, value)], requested)
    {
      OwnOptionIsRequested(requested, value);
    }
    forall a: seq<TftpOption>, b: seq<TftpOption> | Requested(a, requested) && Requested(b, requested)
      ensures Requested(a + b, requested)
    {
      RequestedJoin(a, b, requested);
    }
    NothingIsRequested(requested);
  }

  lemma BlockSizeNameIsOwn(value: Text)
    ensures !Named(TftpOption(BLKSIZE, value), TIMEOUT) && !Named(TftpOption(BLKSIZE, value), TSIZE)
    ensures !Named(TftpOption(BLKSIZE, value), WINDOWSIZE)
  {
    assert Lowered(TIMEOUT)[0] != Lowered(BLKSIZE)[0];
  }

  lemma TimeoutNameIsOwn(value: Text)
    ensures !Named(TftpOption(TIMEOUT, value), TSIZE) && !Named(TftpOption(TIMEOUT, value), WINDOWSIZE)
    ensures !Named(TftpOption(TSIZE, value), WINDOWSIZE)
  {
  }

  ghost predicate LegalSizes(params: NegotiatedParameters) {
    MINIMUM_BLOCK_SIZE <= params.blockSize <= MAXIMUM_BLOCK_SIZE && 1 <= params.windowSize <= 65535
  }

  lemma {:induction false} GrantsAreLegal(config: EngineConfig, fileSize: Option<U64>,
                                          params: NegotiatedParameters, options: seq<TftpOption>)
    requires LegalSizes(params)
    ensures LegalSizes(GrantAll(config, fileSize, Grant(params, []), options).params)
  {
    hide Stoul, EqualsIgnoreCase;
    if options != [] {
      GrantsAreLegal(config, fileSize, params, options[..|options| - 1]);
    }
  }

  /**
   End to end: a client asking for any options and a server of any capability,
   starting from equal legal defaults, leave negotiation with equal legal
   parameters, whether or not an OACK is needed.
   */
  lemma NegotiationAgrees(client: EngineConfig, server: EngineConfig, fileSize: Option<U64>,
                          requested: ClientRequestedOptions)
    requires client.defaultBlockSize == server.defaultBlockSize
    requires MINIMUM_BLOCK_SIZE <= server.defaultBlockSize <= MAXIMUM_BLOCK_SIZE
    ensures var g := Negotiate(server, fileSize, Defaults(server), BuildRequestedOptionList(requested, client));
      && ApplyOack(requested, Defaults(client), g.oack) == Accepted(g.params)
      && LegalSizes(g.params)
      && (g.oack == [] ==> g.params == Defaults(client))
  {
    var options := BuildRequestedOptionList(requested, client);
    BuiltListIsRequested(requested, client);
    OptionsAgree(server, fileSize, requested, Defaults(server), options);
    GrantsAreLegal(server, fileSize, Defaults(server), options);
    hide ApplyOption, GrantOption, BuildRequestedOptionList;
  }
}
