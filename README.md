# ioringcpp reactor bookkeeping in Dafny

This project models the user-side bookkeeping of ioringcpp, a header-only
C++ reactor over Linux io_uring, and proves properties about it. The model
covers five parts:

- **Submission ring and tokens** (`uring.dfy`, `dispatch.dfy`):
  - `uring::submit` picks slot `tail & mask`, lets the caller fill that
    entry, records the slot in the index array, counts the operation as
    pending and publishes the new tail.
  - Every operation's continuation is boxed on the heap. The box's address
    is the token the kernel hands back with the completion.
  - `wrapped_operation::do_complete` recovers the box from the token, frees
    it, then runs the continuation once.
- **The adapters** (`post.dfy`, `descriptor.dfy`, `socket_base.dfy`,
  `stream_socket.dfy`, `stream_descriptor.dfy`, `acceptor.dfy`):
  - Each asynchronous call fills one submission entry.
  - Each completion functor maps the kernel's signed result to the error
    code and byte count its handler receives.
  - `descriptor` keeps its descriptor number as a small state machine.
- **Stackless coroutines** (`coroutine.dfy`):
  - The `reenter`/`yield` macros run as an interpreter over a flat body of
    code, yield sites and jumps.
  - `Coroutine.Reenter` is an imperative method that runs one invocation
    step by step, as the macros do.
  - The echo client's body is included as a scenario.
- **Buffer views** (`buffers.dfy`): a start and a length. `+=` advances the
  start and clamps at the end.
- **TCP endpoints** (`tcp.dfy`): the byte image of the `sockaddr_storage`
  that `tcp::endpoint` builds from an address and a port, and the addresses
  and protocol of `tcp`.

Objects whose fields the code updates in place are classes:
- the ring (arrays of entries and indices);
- the heap (a map of live boxes);
- descriptors;
- buffers;
- the coroutine state.

Entries, completions, endpoints and addresses are values. Where the code as
written does something other than what it evidently intends, the methods
follow the code. The corrected definition sits beside them, with the
intended property proved (see Findings).

## Model

| member | source | states |
|---|---|---|
| Uring.Inc32 | include/ioring/uring.hpp:87 | `++` on a `__u32` tail or counter wraps from 2^32 - 1 to 0 and adds one otherwise |
| Uring.Slot | include/ioring/uring.hpp:83 | the slot `tail & mask` never lies beyond the mask, so it indexes the entry and index arrays |
| Uring.SlotIsTailModulo | include/ioring/uring.hpp:83 | for a ring of 2^k entries, `tail & mask` is the tail modulo the ring size |
| Uring.Uring.Submit | include/ioring/uring.hpp:76-95 | writes the filled entry into slot `tail & mask` only (the fill sees what the slot held); sets `array[slot] = slot` and leaves every other cell and entry unchanged; advances tail and `pending_` by one modulo 2^32; leaves head and flags unchanged; waits exactly when `tail + 1 == head`, using the tail read before the wait; wakes the kernel exactly when the flags have IORING_SQ_NEED_WAKEUP |
| Uring.Uring.Mapped | include/ioring/uring.hpp:13-23 | a freshly mapped ring has zero head, tail, flags and pending count, and all-zero entries |
| Uring.FullAsWrittenNeeds | include/ioring/uring.hpp:80 | the full test `tail + 1 == head` holds exactly when 2^32 - 1 entries are in flight |
| Uring.FullTestMissesFullRing | include/ioring/uring.hpp:80-84 | a full two-slot ring (head 0, tail 2) does not trigger the wait, and its next slot is the unconsumed slot 0 |
| Uring.FullKeepsCapacity | include/ioring/uring.hpp:80-81 | with the corrected full test (in-flight count equals ring size), one more submission never exceeds capacity |
| Uring.Heap.New | include/ioring/uring.hpp:59-64 | `create` returns a non-null token distinct from every live one, whose box holds the given payload; nothing else in the heap changes |
| Uring.Heap.Delete | include/ioring/uring.hpp:53-55 | the box is read and then freed: the token is no longer live and nothing else changes |
| Dispatch.Complete | include/ioring/uring.hpp:51-57 | `do_complete` frees the box named by `user_data` first (its first event is that free) and only then runs its payload once, with the completion's result; afterwards the token is not live, and only its target descriptor and the endpoint its handler deletes change |
| Dispatch.BoxFreedBeforePayload | include/ioring/uring.hpp:53-56 | in a whole completion the box's free comes first and the user's handler is called exactly once, last |
| Dispatch.CompletionOf | include/ioring/stream_socket.hpp:68-79 | the completion each payload hands over: a byte count only for read and write, and then `res` or 0 on failure; error `-res` on a negative result; no error exactly when `res == 0` for post and close (post.hpp:21-25, descriptor.hpp:59-65) and when `res >= 0` for read, write and accept |
| Dispatch.Run | include/ioring/acceptor.hpp:43-54 | a payload's `operator()`: it ends with the handler's call carrying its completion; it closes a descriptor first exactly when an accept succeeds over an open peer; close_op leaves its descriptor at -1 (descriptor.hpp:59-65), accept_op leaves the peer alone on failure and holding `res` on success, and other payloads change no descriptor |
| Dispatch.Invoke | include/ioring/acceptor.hpp:77-80 | running a handler deletes exactly the heap objects it owns, which is the accept wrapper's endpoint, then calls the user's handler |
| Dispatch.HandlerRunsOnce | include/ioring/uring.hpp:56 | every payload calls its user's handler exactly once, as its last effect, with the completion its result maps to |
| Dispatch.EndpointFreedOnceBeforeHandler | include/ioring/acceptor.hpp:72-81 | the endpoint the two-argument `async_accept` allocated is deleted exactly once, immediately before the user's handler, whether the accept failed or succeeded |
| Dispatch.CloseAlwaysReleases | include/ioring/descriptor.hpp:59-65 | close_op marks the descriptor closed (-1) whatever the result, and passes error `-res` |
| Dispatch.AcceptAssignsPeer | include/ioring/acceptor.hpp:43-54 | accept_op on failure passes `-res` and leaves the peer alone; on success it assigns the new descriptor to the peer, closing its old one exactly when it was open, and passes no error |
| Buffers.Consume | include/ioring/buffers.hpp:27-34 | `+= n` removes `min(n, size)` bytes from the front: the end stays put, the size never grows or underflows; `n >= size` leaves the buffer empty |
| Buffers.ConsumeZero | include/ioring/buffers.hpp:27-34 | `+= 0` changes nothing |
| Buffers.ConsumeTwice | include/ioring/buffers.hpp:64-71 | two advances are one advance by their sum |
| Buffers.MutableBuffer.Advance | include/ioring/buffers.hpp:27-34 | the mutable buffer's `+=` is `Consume` on its value |
| Buffers.ConstBuffer.Advance | include/ioring/buffers.hpp:64-71 | the const buffer's `+=` is `Consume` on its value |
| Buffers.ConstBuffer.constructor | include/ioring/buffers.hpp:44-47 | holds the given start and size, by default null and 0 |
| Buffers.MutableBuffer.constructor | include/ioring/buffers.hpp:12-15 | holds the given start and size, by default null and 0 |
| Buffers.ConstBuffer.FromMutable | include/ioring/buffers.hpp:49-52 | a const buffer made from a mutable one has the same start and size |
| Descriptor.Descriptor.constructor | include/ioring/descriptor.hpp:13-14 | a new descriptor holds -1 and is not open |
| Descriptor.Descriptor.Assign | include/ioring/descriptor.hpp:24-31 | `assign(fd)` closes the previous descriptor exactly when it was open, then holds `fd` |
| Descriptor.Descriptor.Destroy | include/ioring/descriptor.hpp:16-22 | the destructor closes the descriptor exactly when it is open |
| Descriptor.Descriptor.IsOpen | include/ioring/descriptor.hpp:38-41 | the descriptor is open exactly when its native handle is a real descriptor number (non-negative) |
| Descriptor.Descriptor.NativeHandle | include/ioring/descriptor.hpp:33-36 | the native handle is the descriptor number held, -1 when none |
| Descriptor.CloseEntry | include/ioring/descriptor.hpp:73-76 | the close entry is zero except for opcode CLOSE, the descriptor and the token |
| Descriptor.CloseCompletion | include/ioring/descriptor.hpp:63-64 | close_op passes error `-res`, which is no error exactly when `res == 0` |
| Descriptor.Descriptor.AsyncClose | include/ioring/descriptor.hpp:48-77 | one submission of the close entry with the current descriptor and a fresh token boxing a close_op for this descriptor; the descriptor number is unchanged until the completion |
| Descriptor.HandlerEvents | include/ioring/acceptor.hpp:77-80 | a plain handler is one call; the accept wrapper deletes its endpoint, then calls the user's handler |
| Post.PostEntry | include/ioring/post.hpp:36-40 | the post entry is zero except for opcode NOP and the token |
| Post.PostCompletion | include/ioring/post.hpp:21-25 | post_op passes error `-res`: none when `res == 0`, a positive error number when `res < 0` |
| Post.Post | include/ioring/post.hpp:31-41 | exactly one submission, of the NOP entry, with a fresh token boxing a post_op for the handler |
| SocketBase.DefaultGenericEndpoint | include/ioring/socket_base.hpp:45-46 | a default `generic_endpoint` is all zero, with length `sizeof(sockaddr_storage)` |
| SocketBase.GenericEndpointFrom | include/ioring/socket_base.hpp:17-22 | a `generic_endpoint` built from a socket address holds its bytes at the front, zero after them, with length `sizeof(addr)` |
| SocketBase.ReuseAddressRoundTrip | include/ioring/socket_base.hpp:56-63 | `bool(reuse_address(v)) == v` |
| SocketBase.MakeReuseAddress | include/ioring/socket_base.hpp:56-58 | the option stores the flag as the `int` 1 or 0 |
| SocketBase.IsSet | include/ioring/socket_base.hpp:60-63 | the option reads as set exactly when its stored `int` is non-zero |
| SocketBase.Layer | include/ioring/socket_base.hpp:65-68 | whatever its value, the option lives at level SOL_SOCKET |
| SocketBase.Name | include/ioring/socket_base.hpp:70-73 | whatever its value, the option is SO_REUSEADDR |
| SocketBase.Length | include/ioring/socket_base.hpp:85-88 | the option value occupies one `int` |
| SocketBase.LengthAccepted | include/ioring/socket_base.hpp:90-93 | `length(len)` accepts exactly the length `sizeof(int)` |
| SocketBase.ShutdownHow | include/ioring/socket_base.hpp:119-124 | the three shutdown methods are SHUT_RDWR, SHUT_RD and SHUT_WR |
| SocketBase.ShutdownHowInjective | include/ioring/socket_base.hpp:119-124 | distinct methods have distinct numbers |
| SocketBase.ShutdownEntry | include/ioring/socket_base.hpp:132-137 | the shutdown entry is zero except for opcode SHUTDOWN, the socket, the method in `len` and the token |
| SocketBase.AsyncShutdown | include/ioring/socket_base.hpp:126-139 | exactly one submission of the shutdown entry, with a fresh token boxing a post_op |
| StreamSocket.Len32 | include/ioring/stream_socket.hpp:90 | a buffer size stored into the `__u32` length keeps its value below 2^32; any size becomes the one value below 2^32 that is congruent to it modulo 2^32 |
| StreamSocket.ReadEntry | include/ioring/stream_socket.hpp:86-92 | the read entry is zero except for opcode READ, the socket, the buffer's start and size, offset 0 and the token |
| StreamSocket.WriteEntry | include/ioring/stream_socket.hpp:123-128 | the write entry is zero except for opcode WRITE, the socket, the buffer's start and size and the token |
| StreamSocket.TransferCompletion | include/ioring/stream_socket.hpp:68-79 | read_op and write_op pass error `-res` with count 0 on a negative result, and no error with count `res` otherwise |
| StreamSocket.TransferCompletionRoundTrip | include/ioring/stream_socket.hpp:105-116 | the kernel's result can be read back from what the handler receives |
| StreamSocket.ConnectEntryAsWritten | include/ioring/stream_socket.hpp:48-55 | the connect fill clears only opcode, flags, ioprio and fd, then sets opcode CONNECT, fd, addr = endpoint, off = endpoint length and user_data; every other field keeps the slot's old contents |
| StreamSocket.ConnectInheritsStaleLength | include/ioring/stream_socket.hpp:48 | a slot last used by a 4096-byte read yields a connect entry with `len` 4096, where a fully zeroed entry has 0 |
| StreamSocket.ConnectEntry | include/ioring/stream_socket.hpp:48-55 | the corrected connect entry is zero except for opcode CONNECT, fd, addr, off and the token |
| StreamSocket.ConnectEntryOnZeroSlot | include/ioring/stream_socket.hpp:48-55 | on an all-zero slot the partial clear and the full clear agree |
| StreamSocket.AsyncConnect | include/ioring/stream_socket.hpp:43-56 | exactly one submission: the as-written fill over the slot's old contents, with a fresh token boxing a post_op |
| StreamSocket.AsyncReadSome | include/ioring/stream_socket.hpp:58-93 | exactly one submission of the read entry for the buffer, with a fresh token boxing a read_op |
| StreamSocket.AsyncWriteSome | include/ioring/stream_socket.hpp:95-129 | exactly one submission of the write entry for the buffer, with a fresh token boxing a write_op |
| StreamDescriptor.AsyncReadSome | include/ioring/stream_descriptor.hpp:26-60 | exactly one submission of a read entry (offset 0, from the clear) for the buffer, with a fresh token boxing a read_op |
| StreamDescriptor.AsyncWriteSome | include/ioring/stream_descriptor.hpp:62-96 | exactly one submission of the write entry for the buffer, with a fresh token boxing a write_op |
| Acceptor.AcceptEntry | include/ioring/acceptor.hpp:62-69 | the accept entry is zero except for opcode ACCEPT, the listening socket, addr = endpoint storage, addr2 = address of its length field and the token |
| Acceptor.AcceptCompletion | include/ioring/acceptor.hpp:43-54 | accept_op passes error `-res` on a negative result and no error otherwise |
| Acceptor.AsyncAccept | include/ioring/acceptor.hpp:33-70 | exactly one submission of the accept entry, with a fresh token boxing an accept_op for the peer; no socket changes at submission |
| Acceptor.AsyncAcceptNewEndpoint | include/ioring/acceptor.hpp:72-81 | allocates one fresh endpoint, distinct from the token, and accepts into it with a handler that deletes exactly that endpoint |
| Tcp.AddressV4 | include/ioring/tcp.hpp:19-44 | the default IPv4 address is INADDR_ANY: family AF_INET, four zero bytes |
| Tcp.AddressV6 | include/ioring/tcp.hpp:46-71 | the default IPv6 address is family AF_INET6, sixteen zero bytes |
| Tcp.AddressGeneric | include/ioring/tcp.hpp:73-106 | `address_generic` keeps the source's domain (as a 16-bit family), its bytes and its size |
| Tcp.AddressGenericIdempotent | include/ioring/tcp.hpp:75-81 | wrapping a generic address again changes nothing |
| Tcp.MakeEndpoint | include/ioring/tcp.hpp:110-122 | the endpoint fills a whole `sockaddr_storage`; its layout is stated by MakeEndpointDecodes |
| Tcp.MakeEndpointDecodes | include/ioring/tcp.hpp:110-122 | the endpoint announces the address's family; it carries the port in network order at bytes 2..3 and the address verbatim from byte 4; every later byte is zero; its length is `max(4 + size, 16)` |
| Tcp.EndpointLengths | include/ioring/tcp.hpp:117-121 | an IPv4 endpoint has length 16, an IPv6 one 20 |
| Tcp.EndpointFromSockAddr | include/ioring/tcp.hpp:124-129 | an endpoint copied from a socket address holds its bytes at the front, zero after them, with length `sizeof(addr)` |
| Tcp.V4EndpointIsSockAddrIn | include/ioring/tcp.hpp:110-129 | for IPv4, the endpoint built from an address and a port is the one copied from the matching `sockaddr_in` |
| Tcp.V6EndpointMisplacesAddress | include/ioring/tcp.hpp:114-121 | an IPv6 endpoint is 8 bytes shorter than a `sockaddr_in6`; it puts the address's first four bytes where `sin6_flowinfo` is, and its `sin6_addr` field holds the last twelve bytes and four zeros |
| Tcp.V6LoopbackEndpointIsWrong | include/ioring/tcp.hpp:114-121 | for `::1`, bytes 8..23, where `sockaddr_in6` keeps `sin6_addr`, are not `::1`, and the length 20 is below the 24 bytes (SIN6_LEN_RFC2133) Linux requires of an AF_INET6 address |
| Tcp.IntendedEndpointV6 | include/ioring/tcp.hpp:110-122 | the corrected IPv6 endpoint is a `sockaddr_in6` with the family, port and address where the kernel reads them; IPv4 endpoints are unchanged |
| Tcp.V4 | include/ioring/tcp.hpp:177-186 | `tcp::v4()` opens (AF_INET, SOCK_STREAM, IPPROTO_TCP) sockets, and its loopback address is a four-byte address of the same family |
| Tcp.Loopback | include/ioring/tcp.hpp:172-175 | `loopback()` returns the protocol's stored address |
| Tcp.V4LoopbackIsAny | include/ioring/tcp.hpp:170-186 | `tcp::v4()` is (AF_INET, SOCK_STREAM, IPPROTO_TCP), and its `loopback()` is 0.0.0.0 of family AF_INET, not 127.0.0.1 |
| Coroutine.Coroutine.constructor | include/ioring/coroutine.hpp:9 | a fresh coroutine has state 0 |
| Coroutine.Coroutine.Reenter | include/ioring/coroutine.hpp:12-31 | one invocation, run step by step as the macros do, ends in exactly the state, events and exit the interpreter `Invoke` gives |
| Coroutine.Exec | include/ioring/coroutine.hpp:12-31 | running the rest of an invocation only appends events to those so far, and never ends for want of a case label |
| Coroutine.Invoke | include/ioring/coroutine.hpp:12-31 | one invocation of the macros: it finds no case exactly when the stored state is non-zero and names no yield site, and then it does nothing and keeps the state |
| Coroutine.CaseOf | include/ioring/coroutine.hpp:30 | the switch finds the first site with the stored id, or none exactly when the body has no such site |
| Coroutine.AtMostOneSubmission | include/ioring/coroutine.hpp:14-20 | an invocation runs at most one yield statement, so it starts at most one asynchronous call |
| Coroutine.StateOnlyAtSites | include/ioring/coroutine.hpp:13-14 | the state changes only at yield sites; in a body with positive site ids it never returns to 0, and a suspension stores a positive id |
| Coroutine.ResumeSkipsStatement | include/ioring/coroutine.hpp:13-30 | with a non-zero state the invocation enters at that site's case label and steps over its statement |
| Coroutine.FirstSiteRunsSecondSuspends | include/ioring/coroutine.hpp:14-20 | the first site reached stores its id, runs its statement and goes on; the next one stores its id and leaves without running its statement |
| Coroutine.SingleYieldLoopSpins | include/ioring/coroutine.hpp:13-14 | a loop around one yield site never suspends: resumed, it steps over its site on every pass; started fresh, it makes one call and then does the same |
| Coroutine.SingleYieldLoopIntended | include/ioring/coroutine.hpp:13-20 | with the corrected resume, each invocation of that loop makes one call and suspends at the site |
| Coroutine.EchoBody | examples/echo_client.cpp:39-59 | the echo client's body as yield sites, code and jumps, with positive, distinct site lines |
| Coroutine.EchoFirstCall | examples/echo_client.cpp:39-45 | the echo client started fresh connects and stops at the read |
| Coroutine.EchoAfterConnect | examples/echo_client.cpp:41-49 | resumed by the connect, it starts the read and, seeing the connect's byte count 0, stops at `yield break` |
| Coroutine.EchoAfterRead | examples/echo_client.cpp:45-54 | resumed by a read with data, it starts the socket write and stops at the socket read |
| Coroutine.EchoBreakFallsThrough | examples/echo_client.cpp:45-52 | resumed by an empty read, `yield break` leaves only the macro's loop; line 51 runs and the body stops at line 52 without a call, never reaching line 58 |

## Left out

- Atomics and memory ordering. The shared head, tail and flags words are plain fields; acquire/release ordering exists for the user-kernel interplay, which is not modelled.
- `uring::run`, `complete`, `wait`, `wait_complete`, `wakeup`, and the ring constructor and destructor. Their bodies are in `include/ioring/impl/uring.ipp`, which is not part of this model. `Uring.Uring.Submit` reports only whether `wait` and `wakeup` would be called; `Dispatch.Complete` starts from one completion entry.
- System calls: `socket`, `bind`, `listen`, `setsockopt`/`getsockopt` (`set_option`, `get_option`), `close` (recorded only as a `Closed` event), and the setup and enter wrappers in `io_uring_setup.hpp` and `io_uring_enter.hpp`.
- `get_option` calls `option.level()`, which `reuse_address` does not define (socket_base.hpp:112). That is a compile-level mismatch, not behaviour.
- `include/ioring/yield.hpp` only renames the two macros.
- The one-argument `acceptor::async_accept(Handler&&)` is declared (acceptor.hpp:30) but has no definition.
- Error categories. `std::error_code` is modelled by its value. The read completion's `std::error_code(-cqe->res, std::system_error())` (stream_descriptor.hpp:40) does not compile as written: `std::system_error` has no default constructor and is not an `error_category`. The model gives that line the `-res`/0 mapping with the system category that every other adapter uses.
- Pointers, `__u64` tokens and heap addresses are unbounded naturals. Pointer arithmetic in `+=` and the endpoint length field's address are taken without overflow.
- Uring.Uring.Mapped: the zero head, tail, flags, pending count and entries of a fresh ring are an assumption. `pending_` (uring.hpp:122) has no initialiser; the constructor that maps the ring and sets it up is in `include/ioring/impl/uring.ipp`, which is not part of this model.
- Allocation failure. The model assumes every `new` succeeds: the box `new` in `create` (uring.hpp:62), which runs inside the fill after the slot is chosen, and the endpoint `new` of the two-argument `async_accept` (acceptor.hpp:72-81) could throw `std::bad_alloc`.
- Uring.Heap.New: tokens are unbounded, so the model does not capture the 64-bit width of `user_data`.
- Allocation order. The code creates the token inside the fill, after the slot is chosen; the model creates it just before `submit`. The heap and the ring are disjoint, so the final state is the same.
- Handler values copied by `std::decay`: a handler is its identity, and the completion it receives is recorded in the `Called` event. The handler's body is not modelled.
- Coroutine.Coroutine.Reenter: each invocation carries a step bound (`fuel`), so an invocation that does not end is seen only as `OutOfFuel`. Conditions of `if`/`for` are fixed for one invocation (`truths`), because the echo client's only condition is a parameter. `__state` is an unbounded natural, whereas the code uses `unsigned`; source line numbers stay far below 2^32.
- Coroutine: what a submitted handler copy does later is not linked to the ring model. A call is recorded as a `Submitted` event carrying the state the copy holds.
- Tcp: the family field is laid out little-endian. `address_generic`'s `in6_addr` bytes beyond the address size are uninitialised in the code and not modelled. Addresses are at most 16 bytes, the size of an `in6_addr`.
- `main.cpp` and the rest of `echo_client.cpp` are demo glue with `shared_ptr` and iostreams.

## Findings

| source | as written | input that shows it | evidently intended | confidence | as-written member | corrected member |
|---|---|---|---|---|---|---|
| include/ioring/stream_socket.hpp:48 | `memset(sqe, 0, sizeof(sqe))` clears only a pointer's width (8 bytes) of the 64-byte entry, so `len`, the op flags, buf_index, personality and splice_fd_in keep the slot's previous contents | a slot last used by `async_read_some` of 4096 bytes: the connect entry has `len` 4096 | `sizeof(*sqe)`, as in every other adapter: a fully zeroed entry | high, not executed | StreamSocket.ConnectInheritsStaleLength | StreamSocket.ConnectEntry |
| include/ioring/tcp.hpp:114-121 | the IPv6 endpoint puts the address at offset 4 and reports length 20 | `::1`, port 80: bytes 8..23, where `sockaddr_in6` keeps `sin6_addr`, are not `::1`, and the length 20 is below the 24 bytes Linux requires of an AF_INET6 address, so `connect` or `bind` with it is refused rather than reaching the address | a `sockaddr_in6` layout (flowinfo at 4..7, address at 8..23, scope id at 24..27, length 28; section 3.3 of RFC 3493) | high, not executed | Tcp.V6LoopbackEndpointIsWrong | Tcp.IntendedEndpointV6 |
| include/ioring/coroutine.hpp:13-14 | the guard `*state != __LINE__` skips a site whenever the stored state equals it, not only at the resumption point | `for (;;) yield call;` resumed at its site (or started fresh after its one call) steps over the site forever | skip the statement of the resumed site once; a later arrival at that site is a new yield | medium, not executed | Coroutine.SingleYieldLoopSpins | Coroutine.SingleYieldLoopIntended |
| include/ioring/uring.hpp:80 | the full test `tail + 1 == head` holds only with 2^32 - 1 entries in flight, never for a real ring | mask 1, head 0, tail 2 (both slots unconsumed): no wait, and slot 0 is overwritten | wait while `tail - head` (modulo 2^32) equals the ring size | high, not executed | Uring.FullTestMissesFullRing | Uring.FullKeepsCapacity |
