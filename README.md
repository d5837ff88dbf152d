# ESP32 web provisioning firmware: reconnect back-off, static files, Wi-Fi wrapper

This project is a Dafny model of three parts of the ESP32 web-provisioning firmware, with proofs about each.

**The reconnect state machine** (`app_connection.dfy`, module `AppConnection`). The application calls `Init`, `Start` and `Stop`. A one-shot FreeRTOS timer re-enters the transition function `HandleState` at each expiry.

- The global context is the class `Connection`.
- Each method is proved to perform one pure step (`InitStep`, `StartStep`, `StopStep`, `HandleStep`, `Expire`) on a snapshot `Ctx`.
- The timer and the Wi-Fi connect call are ghost effects:
  - whether the timer exists;
  - whether it is armed;
  - its period in milliseconds;
  - how many connects were issued.
- The 8-bit retry counter and the 16-bit interval are written with explicit wrap-around. The invariant `Inv` shows that neither ever wraps.

**The static-file handler of the HTTP server** (`service_webserver.dfy`, module `ServiceWebserver`).

- `GetFilenameAndExtension` and `MakeFullFilename` fill caller-supplied `char` arrays. A C string in an array is its prefix before the first NUL (`CStr`).
- `GetContentType` and `GetFileInfo` are linear searches over the two constant tables. Each is specified by a function and an "exactly when" lemma.
- `GenericGetHandler` is proved equal to the routing function `Route`. `Route` maps a request URI to one of three replies:
  - the embedded file with its MIME type and length;
  - a 500 with the firmware's message;
  - `OutOfBounds`, for the paths on which the C code writes or reads outside its buffers.

**The Wi-Fi interface wrapper** (`intf_wifi.dfy`, module `IntfWifi`). Covered:

- the mode mappings;
- the IPv4 address split;
- the copy of scan results into the static record list;
- the event handler's translation of driver events into interface callbacks;
- the guards of connect, disconnect, set-mode and set-credentials.

Every driver call is a parameter: its success, and for the scan the records the driver holds. The wrapper's context is the class `WifiInterface`. Its ghost fields log the callbacks delivered and the modes handed to the driver.

`wrappers.dfy` holds `Option`, which stands for the NULL pointers the firmware returns.

### Behaviour of the code that the model keeps

The model follows the code. The notes below name the places where the code's behaviour is surprising.

- **Start does not connect.** `app_connection_Start` (main/app/app_connection.c:108-113) sets StartRetry, resets interval and retry count, and arms the timer. It issues no connect. The first connect happens at the first expiry, in the StartRetry branch of `HandleState` (main/app/app_connection.c:36-41, `FirstExpiry`).
- **The cap is a product.** It is 10 × 4 = 40 s, not 10 × 2^4 (`MAX_INTERVAL`, `IncrementBelowLimit`).
- **Stop leaves interval at 1000**, not at the default 10 (`StopEndsEpisode`).
- **The back-off never runs.** The first expiry, in StartRetry, does not re-arm the one-shot timer. So when the machine is driven only by the timer, it stalls in IncrementInterval after one connect:
  - `StalledUntilStop` shows nothing but `Stop` changes the context after that.
  - `BackoffNeverGrows` shows that, from power-up, the retry count never exceeds 1 and the period stays 10 s.
  - The schedule that `HandleState` would produce if it were re-entered is proved separately (`DefaultSchedule`: 20 s, 40 s, 40 s, then max-interval retries at 40 s).
- **Two buffer hazards in the webserver.** `GetFilenameAndExtension` stores the terminator at `filename[dot - slash]` without comparing it to the buffer size. It also copies `filename_size - 1` bytes when there is no dot, whatever the path's length. `SplitFits` states when neither happens:
  - the method requires it;
  - `Route` answers `OutOfBounds` when it fails (`LongStemOverflows`).
- **Disconnect's guard is inverted.** `intf_wifi_Disconnect` calls the driver only while the station is *not* connected, and errors while it is.
- **The mode range check never rejects.** `mode >= MAX && mode <= NULL` is false for every value (`ModeGuardRejects`). As a result:
  - `SetMode` hands the driver `WIFI_MODE_NULL` for an unnamed value.
  - `SetCredentials` picks `WIFI_IF_MAX` for APSTA and unnamed values, and then fails in `ConfigureInterface`.
- **`CopyListToBuff` stores the count even when the read fails.** It stores in `apRecordCount` whatever count the driver call leaves behind. The model takes that to be the clamped request (see `IntfWifi.CopyListOutcome` under "## Left out").

## Model

| member | source | states |
|---|---|---|
| AppConnection.Backoff | main/app/app_connection.c:45-54 | the interval reached after n attempts is a multiple of 10 between 10 and the 40 s cap |
| AppConnection.BackoffClosedForm | main/app/app_connection.c:7 | the interval after n ≥ 1 attempts is min(10 · 2^(n-1), 40): geometric growth cut at the product cap |
| AppConnection.BackoffMonotone | main/app/app_connection.c:45-54 | the back-off schedule never decreases |
| AppConnection.InitOnce | main/app/app_connection.c:87-104 | Init creates the dormant 10 s timer and the defaults (Idle, 0 retries, interval 10, factor 2, limit 4) only when no timer exists; later calls change nothing; Init is idempotent and keeps the invariant |
| AppConnection.StartOpensEpisode | main/app/app_connection.c:106-115 | Start acts only from Idle: StartRetry, interval 10, 0 retries, timer armed with its existing period, no connect; elsewhere a no-op; idempotent; keeps the invariant |
| AppConnection.NothingBeforeInit | main/app/app_connection.c:30 | on the zeroed context Start, Stop and the transition function change nothing |
| AppConnection.FirstExpiry | main/app/app_connection.c:36-41 | the first expiry of an episode issues exactly one connect, sets retryCount 1 and IncrementInterval, and leaves the one-shot timer disarmed |
| AppConnection.IncrementBelowLimit | main/app/app_connection.c:45-54 | below the retry limit: interval becomes min(interval · factor, 40), one connect, retryCount + 1, timer re-armed for the new interval in ms, no 16-bit wrap |
| AppConnection.IncrementAtLimit | main/app/app_connection.c:56-59 | at the retry limit only the state changes, to RetryWithMaxInterval; no connect, no re-arm, interval already 40 |
| AppConnection.RetryAtMaxInterval | main/app/app_connection.c:62-67 | in max-interval mode each step is one connect and a re-arm at 40 s, nothing else |
| AppConnection.StopEndsEpisode | main/app/app_connection.c:69-75 | Stop outside Idle (after Init) disarms the timer and sets Idle, 0 retries, interval 1000; in Idle or before Init it does nothing; never connects; keeps the invariant |
| AppConnection.ExpiryOutsideEpisode | main/app/app_connection.c:77-78 | an expiry in Idle or Null only disarms the timer |
| AppConnection.HandleStepInEpisode | main/app/app_connection.c:32-80 | the transition keeps the invariant; within an episode it stays in the episode, keeps retryCount ≤ limit and the interval non-decreasing between 10 and 40 |
| AppConnection.ExpireInEpisode | main/app/app_connection.c:82-85 | the same for a timer expiry |
| AppConnection.DefaultSchedule | main/app/app_connection.c:36-67 | with the default constants successive transitions re-arm at 20 s, 40 s, 40 s, then switch to max-interval retries re-arming at 40 s, one connect per retry |
| AppConnection.ApplyKeepsReachable | main/app/app_connection.c:82-125 | any API call or timer expiry keeps a context in the set reachable from power-up |
| AppConnection.RunKeepsReachable | main/app/app_connection.c:82-125 | so does any sequence of them |
| AppConnection.BackoffNeverGrows | main/app/app_connection.c:36-41 | from power-up, whatever happens, retryCount ≤ 1, the timer period stays 10 s and max-interval mode is never entered |
| AppConnection.StalledUntilStop | main/app/app_connection.c:36-41 | after the first expiry no sequence of Init, Start and expiries changes the context; only Stop does |
| AppConnection.Connection.constructor | main/app/app_connection.c:30 | the context starts zeroed, with no timer |
| AppConnection.Connection.Init | main/app/app_connection.c:87-104 | performs InitStep on the context and keeps the invariant |
| AppConnection.Connection.Start | main/app/app_connection.c:106-115 | performs StartStep on the context and keeps the invariant |
| AppConnection.Connection.Stop | main/app/app_connection.c:118-125 | performs StopStep (Stopping, then one transition) and keeps the invariant |
| AppConnection.Connection.HandleState | main/app/app_connection.c:32-80 | performs HandleStep on the context, including the Stopping state |
| AppConnection.Connection.TimerCallback | main/app/app_connection.c:82-85 | an expiry of the armed timer performs Expire and keeps the invariant |
| ServiceWebserver.CStrOfPadded | main/services/service_webserver.c:284 | a NUL-free string copied into a zeroed buffer reads back as itself |
| ServiceWebserver.Truncate | main/services/service_webserver.c:290-294 | a bounded copy keeps a prefix of the source: the whole string when it fits, exactly n characters otherwise |
| ServiceWebserver.ContentTypeOfMeans | main/services/service_webserver.c:155-178 | the lookup is NULL exactly when no table entry matches case-insensitively without its dot; otherwise it returns the MIME type of the first matching entry |
| ServiceWebserver.ContentTypeIgnoresCase | main/services/service_webserver.c:92-99 | an extension matching an entry in any letter case gets that entry's MIME type |
| ServiceWebserver.GetContentType | main/services/service_webserver.c:155-178 | the search loop returns the first case-insensitive match, as ContentTypeOf |
| ServiceWebserver.FileIndexOfMeans | main/services/service_webserver.c:256-277 | a file entry is found exactly when the name equals one of the four embedded names, case-sensitively, and it is that entry |
| ServiceWebserver.GetFileInfo | main/services/service_webserver.c:256-277 | the search loop returns the exact-match entry, as FileIndexOf |
| ServiceWebserver.ScanPathFindsLastSegment | main/services/service_webserver.c:186-201 | the scan finds the start of the last segment after the last / or \ and the last dot within that segment; a dot before a later separator is forgotten |
| ServiceWebserver.GetFilenameAndExtension | main/services/service_webserver.c:180-226 | fills the stem buffer with the last segment up to its last dot (truncated to size-1 when there is no dot) and the extension buffer with the text after the dot, truncated to size-1, both NUL-terminated; bytes past the terminators are untouched |
| ServiceWebserver.ScanSegment | main/services/service_webserver.c:186-201 | the scanning loop computes ScanPath of the path's C string |
| ServiceWebserver.CopyExtension | main/services/service_webserver.c:212-225 | copies the text after the dot, at most size-1 characters, and terminates it |
| ServiceWebserver.MakeFullFilename | main/services/service_webserver.c:228-254 | the buffer holds stem "." extension (the dot only for a non-empty extension) truncated to size-1, NUL-terminated, nothing past it written |
| ServiceWebserver.ScanOfStemDotExtension | main/services/service_webserver.c:186-201 | for dir/stem.ext the scan stops at the segment start and at the dot before ext |
| ServiceWebserver.ScanOfPlainSegment | main/services/service_webserver.c:186-201 | for a segment without a dot the scan finds the segment and no dot |
| ServiceWebserver.SplitJoinRoundTrip | main/services/service_webserver.c:300-329 | with stem shorter than the stem buffer and ext shorter than the extension buffer, splitting dir/stem.ext and joining the parts gives stem.ext back |
| ServiceWebserver.GenericGetHandler | main/services/service_webserver.c:279-346 | the handler computes Route: the path (index.html for a trailing slash), the split, the type check, the rejoin and the lookup |
| ServiceWebserver.SendSplitFile | main/services/service_webserver.c:307-345 | from the split buffers: 500 "file not supported" for an unknown type, 500 "failed to send" for an unknown file, else the file with its MIME type and length minus the NUL |
| ServiceWebserver.RouteBySegment | main/services/service_webserver.c:288-345 | a URI dir/stem.ext whose parts fit is answered from stem and ext alone |
| ServiceWebserver.EmbeddedFileReply | main/services/service_webserver.c:104-110 | each embedded name splits into its stem and extension, and these get the file with the right MIME type and length |
| ServiceWebserver.ServesEmbeddedFile | main/services/service_webserver.c:288-345 | a request for any embedded name under any directory gets that file, its MIME type and its length minus the NUL |
| ServiceWebserver.TrailingSlashServesIndex | main/services/service_webserver.c:288-291 | every URI ending in / gets index.html as text/html |
| ServiceWebserver.LongUrisShareReply | main/services/service_webserver.c:284-295 | the path buffer keeps only the first 63 characters of a URI not ending in /, so two URIs that share them get the same reply |
| ServiceWebserver.PlainSegmentNotSupported | main/services/service_webserver.c:203-210 | a last segment without a dot gets 500 "file not supported", unless the stem copy would read past the path buffer |
| ServiceWebserver.LongStemOverflows | main/services/service_webserver.c:203-210 | a 40-character stem with a dot makes the stem terminator land outside the 32-byte buffer |
| ServiceWebserver.FileLookupIsCaseSensitive | main/services/service_webserver.c:256-277 | /INDEX.HTML passes the type check but gets 500 "failed to send" |
| IntfWifi.ConvertToMode | main/wifi/intf_wifi.c:70-89 | the driver mode is non-NULL exactly for AP, STA and APSTA |
| IntfWifi.ConvertToModeInverse | main/wifi/intf_wifi.c:70-89 | the mapping is a bijection from the named modes to the non-NULL driver modes; every other value maps to NULL |
| IntfWifi.GetModeStr | main/wifi/intf_wifi.c:97-116 | a name exists exactly for the modes that have a driver mode |
| IntfWifi.ModeNamesDistinct | main/wifi/intf_wifi.c:97-116 | different named modes have different names |
| IntfWifi.ModeGuardRejects | main/wifi/intf_wifi.c:442-446 | the range check rejects no value |
| IntfWifi.IpToBytes | main/wifi/intf_wifi.c:144-150 | the array's first four bytes become the address's bytes, least significant first; the rest is untouched |
| IntfWifi.IpField | main/wifi/intf_wifi.c:144-150 | the four bytes of the address, least significant first |
| IntfWifi.IpBytesRoundTrip | main/wifi/intf_wifi.c:144-150 | recombining the bytes gives the address back |
| IntfWifi.AddrOfBytesRoundTrip | main/wifi/intf_wifi.c:144-150 | splitting the recombined word gives the bytes back |
| IntfWifi.RequestedCount | main/wifi/intf_wifi.c:168-171 | the clamped request is the count or the list length, whichever is less |
| IntfWifi.ReadCount | main/wifi/intf_wifi.c:168-181 | the stored count never exceeds the request, the list length, or (after a good read) the records the driver has |
| IntfWifi.CopyListOutcome | main/wifi/intf_wifi.c:159-215 | after a good read the list starts with the driver's records and the count is their number; after a failed read the count is the clamped request; the rest of the list is zero records |
| IntfWifi.ScanDoneDataOf | main/wifi/intf_wifi.c:827-829 | success exactly when status is 0; the count is the reported number on success and 0 otherwise |
| IntfWifi.EventDataIsFresh | main/wifi/intf_wifi.c:730 | with the event data laid out as a struct of per-event slots (the layout of main/intf_wifi.h:67-117): the data is cleared before each event, so only the event's own slot is filled, and its IP fields recombine to the event's addresses |
| IntfWifi.ScanListOnlyAfterGoodScan | main/wifi/intf_wifi.c:817-850 | SCAN_DONE is always delivered first; SCAN_LIST follows exactly when the copy succeeded and the status is 0, with a count bounded by the reported number and the list length |
| IntfWifi.StaConnFollowsLastLinkEvent | main/wifi/intf_wifi.c:785-815 | the connected flag is decided by the last STA_CONNECTED or STA_DISCONNECTED event, and unchanged by every other event |
| IntfWifi.InterfaceFor | main/wifi/intf_wifi.c:475-487 | the AP interface exactly for the AP mode, the STA interface exactly for the STA mode, the MAX interface otherwise |
| IntfWifi.WifiInterface.constructor | main/wifi/intf_wifi.c:49 | the context starts zeroed: not connected, NULL mode, empty records |
| IntfWifi.WifiInterface.CopyListToBuff | main/wifi/intf_wifi.c:159-215 | reports the driver's result and stores ReadCount and ListAfterRead; nothing else changes |
| IntfWifi.WifiInterface.HandleEvent | main/wifi/intf_wifi.c:726-901 | sets the flag by StaConnAfter; for other events the data is EventDataOf and the callback CallbackOf; for SCAN_DONE the records are copied and the callbacks are ScanCallbacks; mode untouched |
| IntfWifi.WifiInterface.Connect | main/wifi/intf_wifi.c:536-554 | a connect is issued exactly when not connected; OK exactly when not connected and the driver accepts |
| IntfWifi.WifiInterface.Disconnect | main/wifi/intf_wifi.c:556-572 | a disconnect is issued exactly when NOT connected; OK exactly then and when the driver accepts; always an error while connected |
| IntfWifi.WifiInterface.SetMode | main/wifi/intf_wifi.c:439-458 | every value is accepted by the guard: the driver gets ConvertToMode of it (NULL for unnamed values); OK exactly when the driver accepts; nothing else changes |
| IntfWifi.WifiInterface.SetCredentials | main/wifi/intf_wifi.c:460-499 | missing credentials fail without configuring; otherwise the interface is picked by mode, and the call succeeds exactly for AP or STA with a driver that accepts |

## Left out

- Real time. The FreeRTOS timer is a ghost armed flag plus a period, with no tick conversion (`pdMS_TO_TICKS`). Timer commands are assumed never to fail on a full command queue. `configASSERT` on timer creation is taken as satisfied.
- Concurrency between the timer-service task and the callers of `Start` and `Stop`. The model is sequential.
- The effect of `intf_wifi_Connect` inside the state machine. It is counted as an issued connect, and its result is ignored, as in the code.
- Logging everywhere, including `GetModeStr` returning NULL into a `%s` format in `SetMode`'s log line.
- `httpd_resp_set_type`, `httpd_resp_send` and `httpd_resp_send_err`. A reply is a value, and a failure to set the type (service_webserver.c:319-324) is not modelled.
- Embedded file contents. Each file is its name and its linked size.
- The rest of main/services/service_webserver.c: basic-auth digest creation and comparison (it rests on an external base64 encoder), the POST handler, WebSocket send and receive, `SendAsync` queueing, and server start and stop. This is SDK glue outside the static-file path.
- Requests whose URI contains a NUL before its end. The C string stops there; the model requires a NUL-free URI.
- ServiceWebserver.GetFilenameAndExtension: requires `SplitFits`, because outside it the C code writes or reads out of bounds and has no defined result. `GenericGetHandler` reports those paths as `OutOfBounds` instead of modelling the corruption.
- ServiceWebserver.GenericGetHandler: requires a non-empty URI, because the C code reads `uri[strlen(uri) - 1]`. The HTTP server never passes an empty URI.
- `intf_wifi_Init`, `SetIpInfo`, `IsStaConnected` (a getter of the connected flag), `Start`, `Stop`, `DeInit`, `StartScanning`, `StopScanning`, `GetScanList`, `CreateScanList`, `DestroyScanList` and `SetWifiMode`. These are SDK glue. `SetWifiMode` appears only as its result, `driverOk`.
- IntfWifi.CopyListOutcome: `esp_wifi_scan_get_ap_records` takes the count by pointer (intf_wifi.c:173), and intf_wifi.c:213 stores whatever it holds afterwards, even after a failed call. The model assumes that a failing call leaves the count (the clamped request) and the cleared list unchanged. It does not promise what is stored if the driver changes them on failure.
- IntfWifi.ReadCount: rests on the same assumption about a failing driver call.
- Characters and bytes: one model `char` stands for one C byte, and every buffer bound counts characters as bytes. Multi-byte (non-ASCII) encodings of URIs and SSIDs are not modelled.
- The dynamically allocated record-list build of `CopyListToBuff`. Only the static build is modelled.
- IntfWifi.WifiInterface.SetCredentials: `ConfigureInterface`'s copy of the SSID and password into the driver's configuration is not modelled. Only its failure on `WIFI_IF_MAX` and the driver's answer (`configureOk`) are kept.
- `INTF_WIFI_SCAN_LIST_MAX_LENGTH` is the constructor's `listMax` parameter, because main/wifi/intf_wifi.h, which defines it, is not part of this model.
- IntfWifi.EventDataIsFresh: `intf_wifi_EventData_t` is declared in main/wifi/intf_wifi.h, which is not part of this model. The layout is taken from the older main/intf_wifi.h:67-117, which declares it as a struct with one independent slot per event. Under that layout, the other slots stay zero after the clear at intf_wifi.c:730, and the SCAN_LIST data repeats the SCAN_DONE slot. If the newer header declares a union, as the other event-data types of the firmware are (main/services/service_webserver.h:45, main/app/app_webserver.h:16), those two promises do not hold; only each event's own fields do.
- IntfWifi.WifiInterface.HandleEvent: relies on the same struct layout for its event data, as the line above says.
- IntfWifi.ScanListOnlyAfterGoodScan: its SCAN_LIST data repeats the SCAN_DONE slot only under that struct layout.
- IntfWifi.ModeGuardRejects: the mode values NULL = 0, STA = 1, AP = 2, APSTA = 3, MAX = 4 are taken from the older main/intf_wifi.h:25-32, since main/wifi/intf_wifi.h is not part of this model.
- IntfWifi.WifiInterface.HandleEvent: the SSID slots keep the event's `ssid_len` bytes, not the zero-padded 34-byte array. The scan-list event carries the record list as a value, so the fact that it points into the static list is lost. The handler's registration with the event loop is not modelled.
- main/intf_wifi.c (an older revision of the wrapper), main/main.c, main/app/app_webserver.c and web/script.js are not part of this model.
