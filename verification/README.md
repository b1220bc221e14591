# Reconciliation of load balancers and routes

This project models the two reconcilers of the Rackspace cloud provider and proves what they do to the
remote state, failures included.

* **Load balancers.** A service has one load balancer per port, all on the same virtual IPs. `Balancers.CloudLb`
  is the controller; `Clouds.Cloud` is the remote service, whose calls may fail before or after taking effect.
  `Listing` and `Paging` are the marker pagination, `Polling` the waits, `Members` and `Membership` the members of
  one load balancer under the limit of 25, `AccessLists` and `SourceRanges` the access lists, `Convergence` the
  invariants of one reconciliation, `Runs` the claims about several calls, `Names` the naming scheme. `Traces`
  records every call that writes or polls a load balancer.
* **Routes.** `Routes.RouteController` updates a router and a port (`Neutron`) in turn and unwinds on failure.
  Slices are views of shared arrays (`Slices`), so what an unwinder sends back depends on what was overwritten in
  between. `RouteEffects` states the effects and their round trips; `Addresses` supplies the next hops.

The main results are `Balancers.CloudLb.EnsureLoadBalancer` (its contract is the predicate `Balancers.Reconciled`) with
`Convergence.LiveCountsMatchPorts`, `Runs.EnsureTwice`, `Runs.Retried` and `Runs.Run`; `Members.EnsureLoadBalancerNodes`
with `Membership.FinalExact` and `Membership.InterruptionsRecover`; `Listing.GetLoadBalancersByName` with
`Paging.FixedPagesExactly`; and for the routes `Routes.RouteController.CreateRoute`,
`Routes.RouteController.DeleteRoute`, `Routes.DeleteUndoReached` and `RouteEffects.CreateDeleteIdentity`.

## Assumptions

* Load balancer IDs are unique; the members of one load balancer have distinct IDs and distinct (address, port),
  and the service rejects a create that would break this.
* Node names are distinct, and so are the internal addresses of nodes that have one.
* There is no other writer during a call. A 404 is answered only for what is not there. The status of a load
  balancer may move at every poll, but only a delete makes it PENDING_DELETE or DELETED, and nothing revives it.
* A create honours the virtual IP IDs it is given, in order, and otherwise allocates at least one new virtual IP.
* The listing has a fixed order during one call, and every page brings something new while items remain.
* `wait.ExponentialBackoff` runs its condition at most `Steps` times.
* Text parsing of CIDRs, the address family test and lower-casing are parameters. Strings are compared character
  by character, which is Go's order for ASCII names.
* `Cloud.faults` counts the requests, polls aside, that the load balancer service answered with an error although they
  were in order. A request that is not in order is rejected without counting: members whose address and port repeat or
  are taken, or virtual IPs that do not exist. A 404 for what is not there does not count either.
* The network service answers the k-th request as an arbitrary script says: done, carried out but answered with an
  error, or refused. The compute service answers every request or, unless it is `reliable`, may fail any.

## Where the code differs from its comments

* The comment at openstack_loadbalancer.go:448 says that a node without address is skipped. The error compared there
  is never the one returned, so such a node makes the whole call fail (`Membership.AddressErrorIsNeverNotFound`,
  `Members.EnsureLoadBalancerNodes`).
* The comment at openstack.go:608-612 puts the interfaces' private addresses first. The code offers access addresses,
  then the host name, then the networks (`Addresses.NodeAddresses`).
* "Shallow copy" at openstack_routes.go:104 and 127 copies the slice header only. For deletes the array has been
  overwritten by then (`Routes.RouteController.DeleteRoute`, `Routes.DeleteUndoReached`).
* An access list is compared by address only. So an ALLOW in place of a DENY goes unnoticed, whatever the list
  (`AccessLists.TypesSoundExactly`), and a service that lists 0.0.0.0/0 beside other ranges has a repeated address
  (`AccessLists.ServiceComparisonSoundExactly`). What is written has the right types (`AccessLists.DesiredMeaning`).
* Ensuring a service again is not always quiet: when port numbers repeat, taking an entry out of the list can bring the
  load balancers of one number into another order, and they swap their ports (`Runs.EnsureSwaps`). The exact condition
  for writing nothing is in `Runs.EnsureTwice`.
* UpdateLoadBalancer does not take a load balancer out of the list, so two ports with one number share the first
  one (`Convergence.PortKeysLastWins`).

## Model

| member | source | states |
|---|---|---|
| Names.FullNameInjective | pkg/cloudprovider/providers/openstack/openstack_loadbalancer.go:317-320 | the uncut name identifies cluster, namespace and name when the last two are DNS labels (no underscore), although the cluster name may contain underscores |
| Names.FullNameParts | pkg/cloudprovider/providers/openstack/openstack_loadbalancer.go:317-320 | a fixed prefix, then cluster, namespace and service name with underscores between, at these positions |
| Names.SharedNameExactly | pkg/cloudprovider/providers/openstack/openstack_loadbalancer.go:316-329 | two such services share a load balancer name if and only if they are the same or both full names reach the limit of 128 and agree up to it |
| Names.NameInjective | pkg/cloudprovider/providers/openstack/openstack_loadbalancer.go:316-329 | up to the limit of 128 the name is injective on (cluster, namespace, name) |
| Names.LongNamesCollide | pkg/cloudprovider/providers/openstack/openstack_loadbalancer.go:322-329 | beyond the limit it is not: appending anything to a name that already fills the limit gives another service the same load balancer name |
| Text.FormatUintInjective | pkg/util/openstack/loadbalancer.go:198-208 | decimal printing of IDs is injective, which is what the comparison of markers as strings relies on |
| Text.FormatUintValue | pkg/util/openstack/loadbalancer.go:198-208 | the printed ID is its decimal text: digits only, of the right value, and without a leading zero |
| Text.LessMeaning | pkg/cloudprovider/providers/openstack/openstack_loadbalancer.go:436-442 | names are compared by the first character in which they differ; a proper prefix is smaller |
| Paging.PageIsRun | pkg/util/openstack/loadbalancer.go:183-190 | the page answered to a client that has collected `pos` items is the contiguous run that starts at or just after the marker's item, for any page size |
| Paging.HealthyCollectsAll | pkg/util/openstack/loadbalancer.go:179-219 | if every page brings at least one item beyond the marker (two items when the marker's own item is repeated), the loop ends with the whole collection, whatever mixture of page shapes the server uses |
| Paging.FixedPagesExactly | pkg/util/openstack/loadbalancer.go:179-219 | for one fixed page shape, exactly when the loop collects everything: not for empty pages, and not for one-item pages that repeat the marker's item once there are two items |
| Listing.PageStep | pkg/util/openstack/loadbalancer.go:195-217 | a page is empty or ends at the old marker exactly when it brings nothing new; otherwise dropping the repeated first item appends exactly the next items |
| Listing.CollectPages | pkg/util/openstack/loadbalancer.go:173-219 | the loop terminates against any server and returns a prefix of the collection: every item at most once, in order |
| Listing.GetLoadBalancersByName | pkg/util/openstack/loadbalancer.go:171-229 | against a healthy server: the live load balancers of that name, each exactly once and as they are; it fails if and only if a request failed |
| Listing.FilterValid | pkg/util/openstack/loadbalancer.go:221-226 | keeps, in order, the entries with that name whose status is neither DELETED nor PENDING_DELETE |
| Listing.ValidsList | pkg/util/openstack/loadbalancer.go:221-228 | filtering the full listing gives exactly the live load balancers of the name, without a repeated ID; live are ACTIVE, ERROR, BUILD, PENDING_UPDATE and SUSPENDED ones |
| Listing.ValidsElements | pkg/util/openstack/loadbalancer.go:221-226 | an entry is kept if and only if it has the name and its status is neither DELETED nor PENDING_DELETE |
| Listing.ValidsOrder | pkg/util/openstack/loadbalancer.go:221-226 | and in the order of the listing |
| Listing.GetLoadBalancerByPort | pkg/util/openstack/loadbalancer.go:231-240 | the first entry on the port number, or not found |
| Listing.FirstOnPortMeaning | pkg/util/openstack/loadbalancer.go:231-240 | not found if and only if no entry has the number; otherwise the result is an entry with the number |
| Listing.FirstOnPortFirst | pkg/util/openstack/loadbalancer.go:231-240 | and no entry before it has the number |
| Traces.ReadyMeaning | pkg/cloudprovider/providers/openstack/openstack_loadbalancer.go:148-182 | 'ready' means: the last recorded event about the load balancer is an observation of ACTIVE, so neither a write nor a refused poll came after it |
| Traces.ActiveProtocolMeaning | pkg/cloudprovider/providers/openstack/openstack_loadbalancer.go:471-512 | the protocol predicate, by positions: every member write in the history follows an ACTIVE observation of the same load balancer with no event about it in between |
| Polling.WaitLoadbalancerActiveStatus | pkg/cloudprovider/providers/openstack/openstack_loadbalancer.go:148-182 | at most 19 polls and nothing else; success means that the last poll saw ACTIVE, the error for ERROR that it saw ERROR, a timeout that all 19 polls were neither, any other error that the last poll was answered with it; 422 never ends the wait |
| Polling.WaitLoadbalancerDeleted | pkg/cloudprovider/providers/openstack/openstack_loadbalancer.go:184-209 | at most 13 polls and nothing else; success means that the last poll saw DELETED or was answered 404, and that the load balancer is not alive any more; a timeout means that all 13 polls saw it with another status; any other error ended the last poll, and it is not a 404 |
| Members.PopNode | pkg/cloudprovider/providers/openstack/openstack_loadbalancer.go:137-146 | stays in range if and only if `PopInBounds`, although it ranges over the original length of a slice it shrinks; in range, exactly the members with the key are removed (as a multiset) |
| Members.PopInBoundsExactly | pkg/cloudprovider/providers/openstack/openstack_loadbalancer.go:137-146 | with at least one match, in range if and only if at least (matches - 1) other members follow the last match |
| Members.PopOverruns | pkg/cloudprovider/providers/openstack/openstack_loadbalancer.go:137-146 | a concrete list of three members on which popNode runs out of range |
| Members.DistinctPopInBounds | pkg/cloudprovider/providers/openstack/openstack_loadbalancer.go:137-146 | with distinct (address, port) it never does |
| Members.NodeExists | pkg/cloudprovider/providers/openstack/openstack_loadbalancer.go:126-135 | true if and only if some member has the address and port |
| Membership.AddressErrorIsNeverNotFound | pkg/cloudprovider/providers/openstack/openstack_loadbalancer.go:351-364 | a node without internal address is reported with ErrNoAddressFound, never with the ErrNotFound that the caller would skip |
| Membership.InternalAddressMeaning | pkg/cloudprovider/providers/openstack/openstack_loadbalancer.go:351-364 | the address found is that of the first entry of type InternalIP, whatever stands before it |
| Membership.WantedMeaning | pkg/cloudprovider/providers/openstack/openstack_loadbalancer.go:444-468 | the i-th wanted member is the node port at the i-th node's first internal address |
| Members.MatchNodes | pkg/cloudprovider/providers/openstack/openstack_loadbalancer.go:433-468 | fails exactly when some node has no internal address; otherwise the keys to add are the wanted ones not present, in order, and the members left over are exactly those not wanted |
| Sorting.SortCanonical | pkg/cloudprovider/providers/openstack/openstack_loadbalancer.go:436-442 | for distinct names there is one sorted permutation only, so the library's unstable sort is deterministic |
| Members.DeleteObsolete | pkg/cloudprovider/providers/openstack/openstack_loadbalancer.go:470-481 | one delete per obsolete member, each when the load balancer is ready; on success exactly these are gone, at any failure no other member is |
| Members.AddMissing | pkg/cloudprovider/providers/openstack/openstack_loadbalancer.go:483-512 | after the deletions: one batched create of what fits under the limit of 25, or no call; a failed create may still have taken effect |
| Members.EnsureLoadBalancerNodes | pkg/cloudprovider/providers/openstack/openstack_loadbalancer.go:428-517 | on success the members are `FinalKeys`: at the node port of the first internal address of given nodes, of all of them up to 25; the load balancer is ready and the number of member writes is exact; at any failure the members are `Partial`; if a node lacks an address nothing is written; every member write respects the ACTIVE protocol; with all addresses there and the load balancer alive a failure has a request that failed or a wait that ended badly to blame |
| Membership.FinalExact | pkg/cloudprovider/providers/openstack/openstack_loadbalancer.go:444-507 | with members M and wanted D: M and D in common stay, nothing else than D remains, and the size is max(|M and D in common|, min(25, |D|)) |
| Membership.FinalEarliest | pkg/cloudprovider/providers/openstack/openstack_loadbalancer.go:489-497 | when the limit leaves no room for all, those earlier in the order are added |
| Membership.FinalOfNodes | pkg/cloudprovider/providers/openstack/openstack_loadbalancer.go:428-517 | every final member is the node port at the first internal address of one of the nodes, and up to 25 nodes all of them are members |
| Membership.FinalIdempotent | pkg/cloudprovider/providers/openstack/openstack_loadbalancer.go:444-507 | a second run would delete nothing and add nothing |
| Members.NoWritesWhenDone | pkg/cloudprovider/providers/openstack/openstack_loadbalancer.go:470-507 | after a complete run the number of member writes of another run is zero |
| Membership.InterruptionRecovers | pkg/cloudprovider/providers/openstack/openstack_loadbalancer.go:470-512 | a run after an interrupted one ends where one uninterrupted run would have ended |
| Membership.InterruptionsRecover | pkg/cloudprovider/providers/openstack/openstack_loadbalancer.go:470-512 | the same after any number of interrupted runs, and no wanted member is missing at any point between them |
| Runs.RetryNodes | pkg/cloudprovider/providers/openstack/openstack_loadbalancer.go:428-517 | calling until success, each attempt failing at any call: the final members equal those of one run from the start |
| Membership.SelectionOrderIndependent | pkg/cloudprovider/providers/openstack/openstack_loadbalancer.go:435-442 | any permutation of the node list gives the same members |
| Membership.NodeOrderPermutes | pkg/cloudprovider/providers/openstack/openstack_loadbalancer.go:435-442 | ordering the nodes loses none, and ordering them again changes nothing, so every port of a service works on the same order; up to 25 nodes stay as given, more are in ascending order of their names |
| Membership.FromEmpty | pkg/cloudprovider/providers/openstack/openstack_loadbalancer.go:489-497 | an empty load balancer gets exactly the first 25 wanted members |
| Runs.NewlyServed | pkg/cloudprovider/providers/openstack/openstack_loadbalancer.go:435-507 | a port served by a new load balancer has exactly the first 25 nodes in order |
| SourceRanges.ParseIPNets | pkg/util/net/sets/ipnet.go:27-40 | succeeds if and only if every text parses, with the set of canonical networks |
| SourceRanges.StringSlice | pkg/util/net/sets/ipnet.go:90-98 | each element once, in an unspecified order |
| SourceRanges.IsOnlyAllowAll | pkg/api/v1/service/util.go:41-52 | true if and only if the set is exactly 0.0.0.0/0 |
| SourceRanges.GetLoadBalancerSourceRanges | pkg/api/v1/service/util.go:54-80 | parses the spec field if present, else the annotation, else allow-all |
| SourceRanges.RangeSpecsMeaning | pkg/api/v1/service/util.go:57-73 | a field that is not empty is taken as it is; without it a missing or blank annotation means 0.0.0.0/0, and any other is trimmed and cut at its commas |
| SourceRanges.SplitMeaning | pkg/api/v1/service/util.go:73 | the parts contain no comma, and joined with commas they are the text |
| SourceRanges.TrimSpaceMeaning | pkg/api/v1/service/util.go:68-72 | trimming removes white space at both ends and nothing else; the result is empty if and only if there was nothing else |
| SourceRanges.ParsesMeaning | pkg/util/net/sets/ipnet.go:27-40 | a network is among the ranges if and only if one of the texts, trimmed, parses to it |
| AccessLists.IsAccessListModified | pkg/cloudprovider/providers/openstack/openstack_loadbalancer.go:702-734 | false if and only if length and set of addresses agree |
| AccessLists.DistinctComparisonExact | pkg/cloudprovider/providers/openstack/openstack_loadbalancer.go:702-734 | for distinct new addresses that is: the current addresses are a permutation of the new ones |
| AccessLists.ComparisonSoundExactly | pkg/cloudprovider/providers/openstack/openstack_loadbalancer.go:702-734 | the comparison never mistakes a different list for the new one if and only if the new addresses are distinct or all the same |
| AccessLists.RepeatedAddressMissed | pkg/cloudprovider/providers/openstack/openstack_loadbalancer.go:702-734 | otherwise: a different list that compares as equal |
| AccessLists.ServiceComparisonSoundExactly | pkg/cloudprovider/providers/openstack/openstack_loadbalancer.go:553-558 | for the list of a restricted service the comparison is right if and only if 0.0.0.0/0 is not among its ranges |
| AccessLists.TypeMissed | pkg/cloudprovider/providers/openstack/openstack_loadbalancer.go:702-734 | any item can stand with the other type, and the lists still compare as equal |
| AccessLists.TypesSoundExactly | pkg/cloudprovider/providers/openstack/openstack_loadbalancer.go:702-734 | the comparison never mistakes a list with other types for the new one if and only if nothing is desired |
| AccessLists.TypesDecide | pkg/cloudprovider/providers/openstack/openstack_loadbalancer.go:702-734 | for distinct new addresses, a list that compares as equal is the desired one, types included, if and only if the types agree at every address |
| AccessLists.OrderIrrelevant | pkg/cloudprovider/providers/openstack/openstack_loadbalancer.go:554-557 | two traversals of one set of ranges give lists that compare as equal |
| AccessLists.DesiredMeaning | pkg/cloudprovider/providers/openstack/openstack_loadbalancer.go:553-558 | such a list allows exactly the ranges, denies exactly 0.0.0.0/0, and denies last |
| AccessLists.BuildAccess | pkg/cloudprovider/providers/openstack/openstack_loadbalancer.go:547-558 | the result is `Desired`: empty for allow-all, otherwise exactly one ALLOW for each range in some order and then one DENY of everything |
| AccessLists.EnsureLoadBalancerAccesslists | pkg/cloudprovider/providers/openstack/openstack_loadbalancer.go:736-771 | on success a live load balancer's list is exactly the desired one, types included, unless the old one compares as equal: then it stays; at any failure it is the old, the empty or the new list; a list that already compares as desired is not written, and a success without a write means that it did |
| Runs.AccessTwice | pkg/cloudprovider/providers/openstack/openstack_loadbalancer.go:736-771 | after a success the list is in line, and a second call writes nothing, in whatever order the set of ranges is traversed |
| Balancers.PopLB | pkg/cloudprovider/providers/openstack/openstack_loadbalancer.go:331-345 | removes exactly the entry with the ID, by overwriting it with the last one |
| Convergence.WithoutMeaning | pkg/cloudprovider/providers/openstack/openstack_loadbalancer.go:331-345 | with distinct IDs nothing else is lost, whatever the position |
| Balancers.CloudLb.CreateLoadBalancer | pkg/cloudprovider/providers/openstack/openstack_loadbalancer.go:251-266 | the new load balancer has the port, protocol, access list and, if those that live share them, their virtual IPs; even a create that failed after taking effect keeps the virtual IPs shared |
| Balancers.CloudLb.DeleteLoadBalancers | pkg/cloudprovider/providers/openstack/openstack_loadbalancer.go:268-284 | on success all listed are dead; at any failure nothing but these can have changed; the history gains nothing but removals and polls; a failure has a request that failed or a wait that ended badly to blame |
| Balancers.CloudLb.Retune | pkg/cloudprovider/providers/openstack/openstack_loadbalancer.go:625-637 | protocol ends as desired, the access list exactly so, types included, or stays if it compares as equal; name, port, virtual IPs and members are untouched; a success writes nothing if and only if both agreed |
| Balancers.CloudLb.AdoptExisting | pkg/cloudprovider/providers/openstack/openstack_loadbalancer.go:624-639 | the listed load balancer moves from the rest to the served ones: rest and served stay disjoint and together are all that lives; at a failure each load balancer is as an interrupted call leaves it |
| Balancers.CloudLb.FinishPort | pkg/cloudprovider/providers/openstack/openstack_loadbalancer.go:641-649 | members are written only after ACTIVE was observed, and end as `FinalKeys`; a failure leaves them untouched or as `Partial`; a success writes nothing if and only if there was nothing to write; a failure has a request that failed or a wait that ended badly to blame if the load balancer is alive and all nodes have addresses |
| Balancers.CloudLb.ServePort | pkg/cloudprovider/providers/openstack/openstack_loadbalancer.go:606-651 | one round: the port takes the first listed load balancer on its number or gets a new one, with its number, protocol, access list and members; nothing live of the name dies and nothing is removed; on failure every load balancer is as it was or as an interrupted call for a port on its number leaves it, the one being served included |
| Balancers.CloudLb.ServePorts | pkg/cloudprovider/providers/openstack/openstack_loadbalancer.go:606-651 | the loop: as many distinct load balancers as ports, each still serving its port at the end, matched in the order of the listing; on failure fewer, all of them alive; the reported address is the last one's first virtual IP |
| Balancers.CloudLb.Converge | pkg/cloudprovider/providers/openstack/openstack_loadbalancer.go:606-658 | `Reconciled`: the history has no removal before all ports are served, and nothing but removals and polls after; when the deletions fail, every port is still served by a load balancer of its own |
| Balancers.CloudLb.Reconcile | pkg/cloudprovider/providers/openstack/openstack_loadbalancer.go:576-658 | with an invalid annotation nothing is written; otherwise `Reconciled` with respect to the live load balancers of the name as listed |
| Balancers.CloudLb.EnsureLoadBalancer | pkg/cloudprovider/providers/openstack/openstack_loadbalancer.go:524-700 | from any state, failed earlier runs included. A failure of an acceptable service whose nodes all have addresses has a request that failed, or a wait that ended in ERROR, an error or a timeout, to blame; in a success no request failed. On success the live load balancers of the name are in bijection with the service's ports, each with its port's number, protocol (HTTP when the annotation is `true`, else TCP_CLIENT_FIRST for TCP, UDP for UDP) and members at its node port, and no port number sees both a create and a delete. At any failure: nothing was deleted or every port is served; no served load balancer is dead; each load balancer is as it was or as an interrupted call leaves it. Always: which listed load balancer serves which port follows from the order of the listing; other names are untouched; a name that shared its virtual IPs still does; a success writes nothing if and only if every port finds its load balancer in place. An unacceptable service touches nothing |
| Balancers.KeepClientIPMeaning | pkg/cloudprovider/providers/openstack/openstack_loadbalancer.go:394-412 | only `true` asks for it; any other value but `false` is refused; absent means no |
| Convergence.LiveCountsMatchPorts | pkg/cloudprovider/providers/openstack/openstack_loadbalancer.go:606-658 | for every port number, and every protocol on it, there are exactly as many live load balancers of the name as service ports (TCP and UDP on one number included) |
| Convergence.SparingEnd | pkg/cloudprovider/providers/openstack/openstack_loadbalancer.go:606-658 | no port number sees both a new load balancer and the end of a live one: a load balancer is made only when none is left over on its number |
| Convergence.EqualCountsSameSet | pkg/cloudprovider/providers/openstack/openstack_loadbalancer.go:606-658 | so when each number already has as many load balancers as ports, the set of live load balancers does not change |
| Runs.EnsureTwice | pkg/cloudprovider/providers/openstack/openstack_loadbalancer.go:524-700 | a second successful ensure keeps exactly the load balancers of the first; with distinct port numbers it adds nothing but polls to the history, even when it fails; in general a success adds nothing but polls if and only if each port in turn finds a load balancer in place and none is left over |
| Convergence.ConvergedInOrder | pkg/cloudprovider/providers/openstack/openstack_loadbalancer.go:606-639 | with distinct port numbers and one load balancer in place for each, every port finds its own, whatever the order of the listing |
| Runs.EnsureSwaps | pkg/cloudprovider/providers/openstack/openstack_loadbalancer.go:606-639 | ports such as TCP 80, TCP 53 and UDP 53, listed in that order: an ensure makes the load balancer listed for UDP 53 serve TCP and the other one UDP, members replaced |
| Runs.SwapMatching | pkg/cloudprovider/providers/openstack/openstack_loadbalancer.go:606-639 | why: taking the first entry out brings the last one to the front, so the two ports find the two load balancers in the other order |
| Runs.Retried | pkg/cloudprovider/providers/openstack/openstack_loadbalancer.go:524-824 | ensures and updates in any mixture, each interrupted at any call, and then an ensure that succeeds: with distinct port numbers every port is served as if that had been the only call, members and access list included |
| Convergence.CreatedShares | pkg/cloudprovider/providers/openstack/openstack_loadbalancer.go:241-249 | a load balancer created from the virtual IP IDs of another has the same list of virtual IPs |
| Convergence.CreateVips | pkg/cloudprovider/providers/openstack/openstack_loadbalancer.go:586-618 | if the live load balancers of a name share their virtual IPs, creating one with the current options keeps it so, and its virtual IPs are the right options for the next |
| Convergence.TunedVips | pkg/cloudprovider/providers/openstack/openstack_loadbalancer.go:625-649 | every other write to a load balancer leaves it as it was whether the virtual IPs are shared |
| Balancers.CloudLb.UpdateLoadBalancer | pkg/cloudprovider/providers/openstack/openstack_loadbalancer.go:790-824 | only status and members of the service's load balancers change and the history gains nothing but member writes and polls; the first ports in order have each reconciled the first load balancer listed on their number, all of them on success; on failure the next one's load balancer is untouched or as an interrupted run leaves it; on success the last port with each number finds exactly members of the nodes at its node port there; a failure means no ports, a node without address, a port without load balancer, a request that failed or a wait that ended badly |
| Balancers.UpdatedTouched | pkg/cloudprovider/providers/openstack/openstack_loadbalancer.go:805-821 | with distinct port numbers an update, interrupted or not, is a step of at most one port for each load balancer |
| Convergence.PortKeysDistinct | pkg/cloudprovider/providers/openstack/openstack_loadbalancer.go:805-821 | with distinct port numbers each load balancer ends with what its one port asks for, as after EnsureLoadBalancer |
| Convergence.PortKeysLastWins | pkg/cloudprovider/providers/openstack/openstack_loadbalancer.go:805-821 | with a repeated number the last port wins: no member with another node port is left |
| Balancers.CloudLb.EnsureLoadBalancerDeleted | pkg/cloudprovider/providers/openstack/openstack_loadbalancer.go:826-841 | on success none of the name lives; at any failure only load balancers of the name can have died; nothing else is written; a failure has a request that failed or a wait that ended badly to blame |
| Balancers.CloudLb.GetLoadBalancer | pkg/cloudprovider/providers/openstack/openstack_loadbalancer.go:286-314 | the first virtual IP of a live load balancer on the first port's number; not found if and only if there is none; it fails if and only if a request failed |
| Runs.EnsureThenGet | pkg/cloudprovider/providers/openstack/openstack_loadbalancer.go:286-314 | a lookup after a successful ensure finds an address; if the name shared its virtual IPs before, it is the reported one (that of the last port, looked up by the first) |
| Runs.Run | pkg/cloudprovider/providers/openstack/openstack_loadbalancer.go:524-841 | any number of ensure, update, delete and lookup calls for any services of any clusters, failing anywhere: every name that shared its virtual IPs still does, whatever no call is for is exactly as it was, and the whole history respects the ACTIVE protocol |
| Runs.RunApart | pkg/cloudprovider/providers/openstack/openstack_loadbalancer.go:316-329 | so calls for other services, however long their names, leave all load balancers of a service whose name stays below the limit exactly as they were |
| Convergence.MembersChangedFramed | pkg/cloudprovider/providers/openstack/openstack_loadbalancer.go:790-824 | what an update changes lies within the load balancers of the service's name |
| Convergence.ReapedNamedFramed | pkg/cloudprovider/providers/openstack/openstack_loadbalancer.go:826-841 | and so does what a delete changes |
| Convergence.OtherNamesUntouched | pkg/cloudprovider/providers/openstack/openstack_loadbalancer.go:576-577 | a call for one name leaves every load balancer of another name exactly as it was |
| Runs.ServicesDoNotInterfere | pkg/cloudprovider/providers/openstack/openstack_loadbalancer.go:316-329 | so different services within the name limit never touch each other's load balancers |
| Addresses.AddressList.AddToNodeAddresses | pkg/apis/core/v1/helper/helpers.go:23-38 | appends through the reference what is not there yet: the list stays the order-preserving de-duplication of everything offered |
| Addresses.DedupMeaning | pkg/apis/core/v1/helper/helpers.go:25-38 | the list repeats nothing and has exactly the offered elements |
| Addresses.DedupOrder | pkg/apis/core/v1/helper/helpers.go:25-38 | its elements stand in the order of their first occurrences |
| Addresses.EnumerationUnique | pkg/cloudprovider/providers/openstack/openstack.go:655-659 | sorting removes every trace of the order in which the map of networks is traversed |
| Addresses.NodeAddresses | pkg/cloudprovider/providers/openstack/openstack.go:608-686 | fails if and only if the addresses cannot be decoded. The list repeats nothing and has exactly what the server reports: an InternalIP for each address under the internal network unless that is the public one too, an ExternalIP for each access address and each address under the public network, the host name of the metadata; IPv6 ones only when enabled. Access addresses come first, IPv4 before IPv6, then the host name, then the networks by name, each in listed order; no trace is left of the order in which the map is traversed |
| Addresses.CandidatesMeaning | pkg/cloudprovider/providers/openstack/openstack.go:613-686 | what is offered to the list, by membership: exactly what the server reports |
| Addresses.Arrangement | pkg/cloudprovider/providers/openstack/openstack.go:613-686 | the order of the list, part by part |
| Addresses.PreferredMeaning | pkg/cloudprovider/providers/openstack/openstack.go:709-723 | the chosen address is always of the requested family, internal if there is an internal one of that family, else external; no address only if there is neither |
| Neutron.ServerByNameMeaning | pkg/cloudprovider/providers/openstack/openstack.go:577-606 | a server is found if and only if exactly one has the name; not found if and only if none has |
| Neutron.HopMeaning | pkg/cloudprovider/providers/openstack/openstack.go:697-724 | a next hop is an address of the requested family that the one server with the name reports, internal if it reports any internal one; there is one if and only if it reports any and the family is enabled |
| Neutron.Compute.GetAddressByName | pkg/cloudprovider/providers/openstack/openstack.go:697-724 | that address of the one server with the name, or the error of the step that failed |
| Neutron.Compute.GetPortIDByIP | pkg/cloudprovider/providers/openstack/openstack_routes.go:310-330 | the port of the first interface of the named server that has the address |
| Neutron.PortWithMeaning | pkg/cloudprovider/providers/openstack/openstack_routes.go:321-327 | the interfaces in order: the first that has the address counts |
| Neutron.PortOfMeaning | pkg/cloudprovider/providers/openstack/openstack_routes.go:310-330 | found if and only if exactly one server has the name and some interface of it has the address, and then it is the port of the first such interface |
| Routes.RouteController.ListRoutes | pkg/cloudprovider/providers/openstack/openstack_routes.go:58-101 | one listed route per router route, in order: with the lower-cased name of the last server that owns its next hop, or as a blackhole with the next hop itself when none does; against a reliable compute service it fails if and only if a server cannot be decoded or the router is not answered |
| Routes.RouteController.CollectNames | pkg/cloudprovider/providers/openstack/openstack_routes.go:62-78 | visits every server, later ones taking over addresses from earlier ones; fails if one cannot be decoded |
| Routes.OwnsMeaning | pkg/cloudprovider/providers/openstack/openstack_routes.go:62-75 | a server owns an address if and only if it reports it, under any type |
| Routes.NamesByAddrOwned | pkg/cloudprovider/providers/openstack/openstack_routes.go:62-75 | an address has a name if and only if some listed server owns it |
| Routes.NamesByAddrLast | pkg/cloudprovider/providers/openstack/openstack_routes.go:69-72 | and then it is the lower-cased name of the last server that owns it |
| Routes.BlackholeExactly | pkg/cloudprovider/providers/openstack/openstack_routes.go:86-97 | a route is listed as blackhole if and only if no listed server owns its next hop, and then its target is the next hop itself; otherwise its target is the lower-cased name of the last owner |
| Routes.Caller.Call | pkg/cloudprovider/providers/openstack/openstack.go:402-412 | one write is sent if the shared flag is still armed and none otherwise; it sends what the slice, of routes or of pairs, holds at that moment; the network's own record of writes grows by exactly that |
| Routes.RunDeferred | pkg/cloudprovider/providers/openstack/openstack_routes.go:188-217 | after disarm nothing is written; otherwise every deferred revert is sent once, last deferred first, and the state is the replay of these writes |
| Routes.RouteController.UpdateRoutes | pkg/cloudprovider/providers/openstack/openstack_routes.go:103-124 | one write, recorded by the network; the unwinder refers to the fetched slice, not to a copy |
| Routes.RouteController.UpdateAllowedAddressPairs | pkg/cloudprovider/providers/openstack/openstack_routes.go:126-147 | likewise for the address pairs |
| Routes.RouteController.CreateRoute | pkg/cloudprovider/providers/openstack/openstack_routes.go:149-223 | the writes that the network recorded are exactly `log`. On success the route and a pair for its CIDR are there and nothing was reverted, or the route was there and nothing was written. A failure leaves the exact original routes and pairs if and only if nothing took effect or the undo did and no unacknowledged pair write took effect. Against a reliable compute service outcome and writes are a function of the state and the answers. The next hop is an address of the CIDR's family that the node reports. On success with the route missing before, it is appended; the old pairs of the port are a prefix of the new ones, and a pair for the CIDR is there, appended exactly when there was none |
| RouteEffects.CreateAllOrNothing | pkg/cloudprovider/providers/openstack/openstack_routes.go:184-218 | the step to that from the shape of the transaction |
| RouteEffects.CreateMeaning | pkg/cloudprovider/providers/openstack/openstack_routes.go:177-217 | a successful create entry by entry, other ports untouched |
| RouteEffects.CreateSucceedsExactly | pkg/cloudprovider/providers/openstack/openstack_routes.go:149-223 | when a create succeeds, as a condition on the next hop, the port, the pairs and the answers |
| Routes.RouteController.DeleteRoute | pkg/cloudprovider/providers/openstack/openstack_routes.go:225-308 | the writes that the network recorded are exactly `log`. On success one entry and the pair for its CIDR are gone by overwriting with the last, with no further write, or nothing matched and nothing was written. A failure leaves the exact original state if and only if it was undone as for a create and, once the routes had been updated, the deleted entry equals the last; a blackhole route never touches a port. Against a reliable compute service outcome and writes are a function of the state and the answers. The entry that goes is the first for the CIDR through the node's next hop or the orphan's own; the pair that goes is the first for the CIDR, and if there is none the pairs stay |
| RouteEffects.DeleteUndoExactly | pkg/cloudprovider/providers/openstack/openstack_routes.go:263-282 | after an acknowledged route update and undo, the routes are the original with the deleted position overwritten by the last entry: the original if and only if these are equal |
| RouteEffects.DeleteMeaning | pkg/cloudprovider/providers/openstack/openstack_routes.go:244-303 | a successful delete entry by entry, other ports untouched |
| RouteEffects.DeleteSucceedsExactly | pkg/cloudprovider/providers/openstack/openstack_routes.go:225-308 | when a delete succeeds, likewise |
| Routes.DeleteUndoReached | pkg/cloudprovider/providers/openstack/openstack_routes.go:225-308 | for every router and every entry there is a cluster in which deleting the entry's route fails after the router update and, with every request carried out, leaves the list with the entry overwritten by the last: the original if and only if these are equal |
| RouteEffects.PairRoundTrip | pkg/cloudprovider/providers/openstack/openstack_routes.go:200-217 | adding then removing the pair of a CIDR restores the pairs if and only if there was none |
| RouteEffects.CreateDeleteIdentity | pkg/cloudprovider/providers/openstack/openstack_routes.go:172-217 | create then delete is the identity on routes and pairs, element for element, if and only if neither the route nor a pair for its CIDR was there |
| Routes.CreateThenDelete | pkg/cloudprovider/providers/openstack/openstack_routes.go:149-308 | the same for the two calls in a row |
| RouteEffects.OrphanDeleted | pkg/cloudprovider/providers/openstack/openstack_routes.go:235-271 | deleting an orphan as it was listed removes exactly one entry equal to it and touches no port, when next hops are not empty |
| Routes.DeleteListedOrphan | pkg/cloudprovider/providers/openstack/openstack_routes.go:58-271 | the same for listing and deleting in a row |
| RouteEffects.NodeRouteDeletedExactly | pkg/cloudprovider/providers/openstack/openstack_routes.go:236-261 | deleting a route of a known node removes an entry if and only if one goes through the node's preferred address; otherwise it reports success and changes nothing |

## Left out

- HTTP, authentication, configuration files, the metadata service, volumes, zones, labels and instance lookup.
- Delays of the backoff: only the number of polls is modelled, with any status at each.
- Balancers.CloudLb.UpdateLoadBalancer: what a failure leaves behind is stated; which error is returned is not.
- Runs.Retried: recovery after interruptions is stated for distinct port numbers; with repeated ones a retry may match
  ports and load balancers otherwise (`Runs.EnsureSwaps`).
- Runs.Run: lists of nodes are fresh in each call; sharing of one array between calls is not modelled.
- Service texts of errors and logging; error values are an enumeration.
- Types of an existing access list that compares as equal: they stay as they are, and nothing is claimed about them.
- The health monitor and session affinity that the source has commented out.
- Members of IPNet other than parsing and StringSlice (Insert, Delete, Difference, IsSuperset, Equal): one-line set operations.
- Purging of deleted load balancers from the remote listing: they stay with a dead status, which the listing filters.
- Paging of the member lists and of the server lists: read in one call.
- Case-insensitive matching of server names by the compute service: the name filter is taken as exact.
- 64-bit and 32-bit widths of IDs and ports: all values are carried unchanged and only compared, so they are unbounded integers here.
- The write that reverts address pairs: it is deferred last and nothing after it can fail, so it never runs.
