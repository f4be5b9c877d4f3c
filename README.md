# NetworkType classifier of the ICE agent

A Dafny model of the network-type component of the `ice` crate of a Rust
WebRTC stack. The component tags each ICE candidate (RFC 8445) with
its transport and address family. The tag is a closed enumeration of
seven values: `Unspecified`, `Udp4`, `Udp6`, `Tcp4`, `Tcp6`, `Quic4`
and `Quic6`. Around it sit:

- total queries: which transport the tag has, whether it is reliable,
  which address family it has, and its short label;
- three encodings: the display token, the serialized name, and a lossy
  one-byte code;
- the fixed list of transports the agent supports;
- `determine_network_type`, which turns a protocol label and an IP
  address into a tag, or fails with `ErrDetermineNetworkType`.

The model has two modules:

- `Text` (`text.dfy`) stands in for the two standard-library string
  operations the classifier uses. `Lower` is ASCII lower-casing and
  `StartsWith` is a prefix test. It also proves the facts about them that
  the classification lemmas need: lowering is idempotent, distributes
  over concatenation, leaves lowered text alone, and forgets exactly the
  case that ASCII upper-casing (`Upper`) adds.
- `NetworkTypes` (`network_type.dfy`) holds the enumeration as a
  `datatype` with its queries as member functions. It also has the byte
  decoding, the supported list, the serialized names with their inverse,
  and `DetermineNetworkType`, which returns a `Result`.

Everything in the source is a `match` or an `if` over an immutable value,
so the whole model consists of functions and lemmas. There are no
methods and no state.

Each contract relates a query to the other queries instead of repeating
its own table. Some examples:

- reliability is "TCP or QUIC";
- the display token is the short label followed by the family digit;
- the byte code is described by its ranges and its parity;
- classification succeeds exactly when one of the three labels begins
  the lowered input.

Lemmas then give the partners:

- the display token round-trips through `Deserialize`, and no two tags
  share a token;
- at most one of the prefixes `udp`, `tcp` and `quic` can match, so the
  order in which they are tried never changes the result;
- classification is fully characterised by the short label and the
  family, in both directions;
- classification ignores case and anything after a recognised label;
- classification recovers every real tag from its own short label or
  display token.

The doc comments on `Quic4` and `Quic6` in the source say "TCP"
(ice/src/network_type/mod.rs:48, 52). The serialized names and every
match in the code treat them as QUIC, and so does the model.

## Model

| member | source | states |
|---|---|---|
| `Text.LowerChar` | ice/src/network_type/mod.rs:154 | an upper-case ASCII letter becomes the lower-case letter at the same place in the alphabet; every other character is unchanged; a lowered character is never an upper-case ASCII letter |
| `Text.Lower` | ice/src/network_type/mod.rs:154 | lowering keeps the length, lowers each character in place, and leaves no upper-case ASCII letter |
| `Text.LowerIdempotent` | ice/src/network_type/mod.rs:154 | lowering an already lowered label changes nothing |
| `Text.LowerAppend` | ice/src/network_type/mod.rs:154 | lowering a concatenation gives the concatenation of the lowered parts |
| `Text.LowerUpper` | ice/src/network_type/mod.rs:154 | raising a label to ASCII upper case and then lowering it gives the label lowered, so case is all that lowering forgets |
| `Text.StartsWith` | ice/src/network_type/mod.rs:155-167 | definition: the first characters of the label are the given prefix, which is what `starts_with` tests |
| `Text.LowerOfLowered` | ice/src/network_type/mod.rs:154 | a label with no upper-case ASCII letter is its own lower-case form |
| `Text.StartsWithAppend` | ice/src/network_type/mod.rs:155 | a prefix of a label remains a prefix of every extension of the label |
| `NetworkTypes.IpAddr.IsIpv4` | ice/src/network_type/mod.rs:153 | definition: the address is an IPv4 address |
| `NetworkTypes.NetworkType.IsUdp` | ice/src/network_type/mod.rs:95-97 | definition: the tag is `Udp4` or `Udp6` |
| `NetworkTypes.NetworkType.IsTcp` | ice/src/network_type/mod.rs:101-103 | definition: the tag is `Tcp4` or `Tcp6` |
| `NetworkTypes.NetworkType.IsQuic` | ice/src/network_type/mod.rs:106-108 | definition: the tag is `Quic4` or `Quic6` |
| `NetworkTypes.NetworkType.IsReliable` | ice/src/network_type/mod.rs:123-129 | reliable exactly when the tag is TCP or QUIC, so never for UDP or `Unspecified` |
| `NetworkTypes.NetworkType.IsIpv4` | ice/src/network_type/mod.rs:134-139 | definition: the tag is `Udp4`, `Tcp4` or `Quic4` |
| `NetworkTypes.NetworkType.IsIpv6` | ice/src/network_type/mod.rs:134-148 | IPv6 and IPv4 are never both true, and one of them holds exactly when the tag is not `Unspecified` |
| `NetworkTypes.NetworkType.NetworkShort` | ice/src/network_type/mod.rs:112-119 | the short label is `udp`, `tcp` or `quic` exactly when the tag has that transport, and the capitalised `Unspecified` exactly for `Unspecified` |
| `NetworkTypes.NetworkType.ToString` | ice/src/network_type/mod.rs:71-84 | the display token of a real tag is its short label followed by `4` or `6` according to its family; for `Unspecified` it is `unspecified` |
| `NetworkTypes.NetworkType.SerdeName` | ice/src/network_type/mod.rs:29-54 | definition: the serialized name of each variant, as its rename attribute gives it |
| `NetworkTypes.Default` | ice/src/network_type/mod.rs:86-90 | the default tag has no transport, no address family and is not reliable |
| `NetworkTypes.FromByte` | ice/src/network_type/mod.rs:57-69 | bytes 1 to 6 give real tags and every other byte, 0 included, gives `Unspecified`; 1-2 are UDP, 3-4 TCP, 5-6 QUIC; odd codes are IPv4 and even codes IPv6 |
| `NetworkTypes.SupportedNetworkTypes` | ice/src/network_type/mod.rs:15-24 | four entries, UDP first then QUIC, IPv4 before IPv6 within each; a tag is in the list exactly when it is UDP or QUIC, so no TCP tag is |
| `NetworkTypes.Deserialize` | ice/src/network_type/mod.rs:27-55 | a name reads back as `v` exactly when it is `v`'s serialized name; any other name is a format error, not `Unspecified` |
| `NetworkTypes.DetermineNetworkType` | ice/src/network_type/mod.rs:152-176 | succeeds exactly when the lowered label starts with `udp`, `tcp` or `quic`; on success the tag is not `Unspecified`, its short label begins the lowered label, and its family is the address's |
| `NetworkTypes.TransportPartition` | ice/src/network_type/mod.rs:95-108 | at most one of UDP, TCP and QUIC holds for any tag, and none holds exactly for `Unspecified` |
| `NetworkTypes.FromByteInjective` | ice/src/network_type/mod.rs:58-67 | on codes 1 to 6 different bytes decode to different tags |
| `NetworkTypes.SerdeNameIsToString` | ice/src/network_type/mod.rs:29-54 | each variant's serialized name equals its display token |
| `NetworkTypes.ToStringRoundTrip` | ice/src/network_type/mod.rs:73-81 | reading back a display token recovers the tag it came from |
| `NetworkTypes.ToStringInjective` | ice/src/network_type/mod.rs:73-81 | no two tags share a display token |
| `NetworkTypes.PrefixesExclusive` | ice/src/network_type/mod.rs:10-12 | no string starts with two of `udp`, `tcp` and `quic`, so the order in which they are tried cannot change the result |
| `NetworkTypes.DetermineNetworkTypeExactly` | ice/src/network_type/mod.rs:152-175 | classification yields `v` if and only if `v` is a real tag whose short label begins the lowered label and whose family is the address's |
| `NetworkTypes.DetermineNetworkTypeIgnoresCase` | ice/src/network_type/mod.rs:154 | a label, its lower-case form and its upper-case form all classify alike |
| `NetworkTypes.DetermineNetworkTypeIgnoresSuffix` | ice/src/network_type/mod.rs:155-172 | once a label is recognised, appending anything to it leaves the result unchanged |
| `NetworkTypes.DetermineNetworkTypeNeedsLetterFirst` | ice/src/network_type/mod.rs:173-175 | a label whose first character is not a letter, such as leading white space, is rejected with `ErrDetermineNetworkType`; nothing is trimmed |
| `NetworkTypes.DetermineNetworkTypeRecoversTag` | ice/src/network_type/mod.rs:152-172 | every real tag is recovered from its own short label, and from its display token, given an address of its family |
| `NetworkTypes.DetermineNetworkTypeUpperCaseExamples` | ice/src/network_type/mod.rs:154-172 | `UDP` with an IPv4 address gives `Udp4`, and `QUIC` with an IPv6 address gives `Quic6` |
| `NetworkTypes.DetermineNetworkTypeLowerCaseExamples` | ice/src/network_type/mod.rs:155-166 | `udp` with an IPv6 address gives `Udp6`, and `tcp6ish` with an IPv4 address gives `Tcp4` |
| `NetworkTypes.DetermineNetworkTypeErrorExamples` | ice/src/network_type/mod.rs:173-175 | `sctp` and ` udp` (with a leading space) are both rejected with `ErrDetermineNetworkType` |

## Left out

- Unicode lower-casing: `to_lowercase` (ice/src/network_type/mod.rs:154) is modelled as ASCII lower-casing, and other characters are kept as they are. Only the ASCII prefixes `udp`, `tcp` and `quic` are ever compared with the result.
- `IpAddr`: only its family is kept (`V4` or `V6`), because `is_ipv4` is the only fact the classifier reads (ice/src/network_type/mod.rs:153).
- The serde derive (ice/src/network_type/mod.rs:27): the library that generates it is not part of this model. Its rename table is `SerdeName`, and `Deserialize` is a hand-written inverse. Serde's own error values and message text are reduced to `None`.
- `fmt::Formatter` and `write!` (ice/src/network_type/mod.rs:72, 82): `Display` is modelled as the pure function `ToString`.
- The `Hash`, `Debug`, `Copy`, `Clone`, `PartialEq` and `Eq` derives: a Dafny datatype already has value equality, and the others have no behaviour to model.
- The crate's `error` module: only the one `ErrDetermineNetworkType` case is modelled.
- The `network_type_test` module (ice/src/network_type/mod.rs:1-2) is not part of this model.
