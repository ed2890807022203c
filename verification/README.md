# Dafny model of the IPsec client backend

The backend keeps IPsec VRFs in a database and deploys every active one: software VRFs
as files and daemons on its own host, the hardware VRF (row 1) as configuration on a
Cisco switch. Secrets are sealed under a key hierarchy that starts from the user's
password. This project models that behaviour and proves what it keeps over every run,
what every failure leaves behind, and where the code falls short of what one would
expect of it.

`dafny verify dfyconfig.toml` checks everything.

## The parts

- **Lifecycle of a VRF** (`Validation`, `SupervisorEnv`, `SoftwareGenerator`,
  `DeploymentProofs`, `Lifecycle`, `LifecycleProofs`, `LifecycleRuns`, `FrrRuns`,
  `Daemons`, `Removals`, `Compensation`, `BgpCompensation`, `Leftovers`, `StoredRows`,
  `DeployedFiles`). The state is the table of rows, the file map of
  the host, the files as strongSwan and supervisord last read them, and FRR's instances.
  The steps are the create, update and delete requests. `Faults` says of every file and
  daemon call whether it fails, so "any faults" means every possible pattern of
  failures. `Consistent` says: files other than vtysh's own are exactly the paths of
  the active software rows, each with the content rendered from the row as it unseals;
  client names of software rows are distinct and certificate addresses within a row are
  too. `Row1Kept`, that row 1 is there and is called "hardware", is a property of its own.
  `StoredRows` and `DeployedFiles` say what that content is: what a request makes of a
  row field by field, and what stands in each file.
- **Encrypted store** (`Base64`, `Crypto`, `Vault`, `VaultRefinement`, `VaultReads`, `BasicAuth`).
  The AEAD (interface of section 2 of RFC 5116) and SHA-256 are ideal functions;
  `Ideal` says that opening inverts sealing under the same key and fails under any
  other. The layout nonce ++ ciphertext and the unpadded base 64 text around it are
  spelled out. `Refines` relates the tables to a plain store: a password, a map of
  settings and the endpoint lists in the clear; `VaultReads` tells the answers from the
  operations and the hash alone.
- **Hardware VRF** (`Switch`, `HardwareGenerator`, `HardwareProofs`, `HardwareRemoval`,
  `HardwareRuns`, `HardwareResult`, `WhenExpr`). The
  switch is a map from named resources to the resources they refer to; PATCH merges
  (section 4.6.1 of RFC 8040), DELETE removes (section 4.7), and `replies` gives the
  switch's answer to every attempt. `HardwareResult` says what is on the switch
  afterwards, told from the endpoints. `WhenExpr` compares the backend's reading of YANG
  `when` statements (section 7.21.5 of RFC 7950) with XPath's.
- **Shell script, printers and bounded tables** (`Text`, `Kernel`, `IpsecScript`,
  `InterfaceNames`, `IpsecCycles`, `StartedScript`, `Restconf`, `Monitoring`, `ErrorStore`).

Code that changes things step by step is modelled as classes and methods with loops
(`Vault.Store`, `SoftwareGenerator.Host` and `Generator`, `Lifecycle.Backend`,
`Switch.Connection`, `HardwareGenerator.Generator`, `IpsecScript.Machine`,
`ErrorStore.Table`, `Restconf.Receiver`). Each method is proved equal to a function of
the old state, and the theorems are about those functions and the runs made of them.

## What turned out not to hold

Each of these is stated exactly in the model.

- A delete request whose number is 1 modulo 2^32, but not 1, deletes the hardware row
  and does not put it back (`LifecycleRuns.Row1KeptExactly`, `Row1Lost`).
- Deploying a VRF whose OSPF flag was never set panics after its files are written
  (`LifecycleProofs.DeployConsistent`). If it needs BGP it is then active without its
  instance (`LifecycleRuns.StepPanics`, `FrrRuns.StepBgp`, `RunBgp`, `PanicMissesBgp`), and the daemons do not work
  from the files until the next request that reaches them (`Daemons.RunDaemons`). OSPF
  instances are never withdrawn (`FrrRuns.RunOspf`, `OspfOutlives`).
- A delete drops the row even when its files could not be removed, and then they belong to
  nobody (`Removals.DeleteExactly`, `FailedDeleteLeaves`).
- The compensating request of the user interface puts files and BGP back after a failed
  activation of an inactive VRF. After any other patch it does so for the files exactly
  under the condition of `Compensation.CompensationExactly`. After a failed deactivation it
  calls nothing, so whatever file could not be removed stays (`DeactivationExactly`,
  `FailedDeactivationStays`, `Leftovers.FailedDeactivationHappens`). After a deletion that
  stopped half-way certificate files stay (`Leftovers.HalfDeletionLeaves`,
  `HalfDeletionHappens`), and deleting the VRF does not remove them (`DeleteLeavesTorn`).
  Activating the VRF once more with the same certificate paths brings files and rows back
  in step in all of these cases (`ThirdPatchRecovers`).
- When a patch changes the AS number and the old BGP instance could not be taken down, every
  later attempt names the new number, and the instance outlives the compensation and the VRF
  (`BgpCompensation.BgpCompensationExactly`, `ChangedAsStays`).
- After a password change that fails past the password file a setting can be read only
  when the new password, cut at a colon, has the old one's hash and the store was not
  emptied; otherwise everybody is locked out. A change whose second table operation fails
  loses the master password (`BasicAuth.FailedChangeLocksOut`,
  `VaultRefinement.ChangePasswordFaults`). A new password with a colon makes every setting
  unreadable (`BasicAuth.ReadableAfterChange`), and a restart puts the built-in password
  into the password file whether or not it is the store's (`BasicAuth.RestartReads`).
- n start/stop cycles of `ipsec.sh` with k NAT endpoints leave a detached chain of n * k
  rules (`IpsecCycles.VrfCyclesLeave`). Interface names of endpoint 101 and later
  collide with those of other VRFs (`InterfaceNames.NamesCollide`).
- Taking down a hardware VRF of both kinds leaves trustpoints, and taking down any
  removes IPv6 routing and the BGP process even if they were there before
  (`HardwareProofs.CreateThenDelete`). Two crypto items pass the length check, but the
  templates need three, and the local id "@" makes the psk profile fail
  (`HardwareProofs.GenerateSucceeds`, `LoneAtFails`).
- Refused deletes are logged and passed over, so the switch can be left with references
  to resources that are gone: exactly when it refused to delete something and accepted
  to delete what that refers to (`HardwareRemoval.DeleteStepsExactly`,
  `RefusedDeleteDangles`). Row 1 is replaced even when its take-down does not reach the
  switch at all, and then what is there of the old row is not taken away
  (`HardwareRuns.UnreachedKeeps`).
- A conjunction with the literal `!=` in it, other than as the last clause, is misread
  for the cipher `and` (`WhenExpr.AllowedIsXPath`, `MisreadHappens`).
- Clients with a dash in their name are not found by monitoring, with the exception
  that `Monitoring.OneDashShown` describes.

## Model

| member | source | states |
|---|---|---|
| LifecycleRuns.RunConsistent | ipsec-backend/app.go:640-913 | Over every run of create, update and delete requests without I/O failures, panics and deletes of row 1 included, with distinct client names and distinct certificate addresses within a VRF, the deployed files are exactly those of the active software rows with content rendered from the decrypted rows; what that content is, DeployedFiles.RunFiles says |
| DeployedFiles.RunFiles | ipsec-backend/config/software_generator.go:57-157 | Over every such run each active software row has its files with this in them: under the peer's address the remote certificate, under the local address the local one, the private key under the peer's address, for every endpoint with certificates; the configuration with the client's name, phase 1, phase 2 and the endpoints in the clear; the environment that describes the VRF |
| DeployedFiles.UpdateDeploys | ipsec-backend/app.go:724-816 | Without failures an acceptable update that leaves a software VRF active deploys those files for the request laid over the old row |
| DeployedFiles.CreateDeploys | ipsec-backend/app.go:640-722 | And an acceptable create of an active one deploys them for the request as it is |
| DeployedFiles.CryptoText | ipsec-backend/config/software_generator.go:264-276 | The text of a proposal list is the list joined by hyphens when its parts are not empty and have no hyphens |
| DeployedFiles.HyphensHalved | ipsec-backend/config/software_generator.go:264-276 | Of every run of hyphens in the joined text half, rounded up, is left |
| DeployedFiles.DeployedVtysh | ipsec-backend/config/frr.go:46-69 | A deployment without failures leaves in vtysh's file one BGP instance with the VRF's AS, id and the peer of every endpoint, and OSPF on its VLANs if it has the flag; without OSPF and BGP endpoints it does not touch that file |
| DeployedFiles.DeletedVtysh | ipsec-backend/config/frr.go:71-75 | A deletion leaves the command that takes down the VRF's instance by AS and id |
| DeployedFiles.ReloadOrder | ipsec-backend/config/software_generator.go:57-88 | Under any failures supervisord and then strongSwan read their files only after everything is written, and both have when the deployment reports success |
| StoredRows.CreateAnswers | ipsec-backend/app.go:640-722 | A create is refused if and only if VLAN ids repeat or are 0, a tunnel address has a colon, a BGP endpoint comes without AS or with peer addresses disabled, or the interface has no name; refused or without the password it changes nothing |
| StoredRows.UpdateAnswers | ipsec-backend/app.go:724-816 | The same of an update, where the number in the URL decides which JSON check is made, its lower 32 bits which row it is, and row 1 keeps its name |
| StoredRows.DeleteAnswers | ipsec-backend/app.go:872-913 | A delete is refused only for a number beyond 63 bits, takes the row of the lower 32 bits, and puts the first row back only for the number 1 |
| StoredRows.HardwareAnswers | ipsec-backend/app.go:529-548 | An acceptable update of row 1 leaves the host alone and answers as the switch does, or with success when the row is inactive before and after |
| StoredRows.HardwareDeleteAnswers | ipsec-backend/app.go:872-913 | So does its deletion, whatever number leads to it |
| StoredRows.UpdateStores | ipsec-backend/db/db.go:260-267 | Whatever fails afterwards, the row of an acceptable update reads back with name, interface, AS, active flag, peer-address flag and OSPF of the request where they are not zero and of the old row where they are, with the request's VLANs, crypto lists and endpoints under new ids, one layer of sealing around each pre-shared key, and no other row changed |
| StoredRows.CreateStores | ipsec-backend/app.go:640-722 | The row of an acceptable create is the request in every field, with the new id and inactive unless it says otherwise |
| StoredRows.InactiveStored | ipsec-backend/app.go:529-548 | A VRF created inactive, or inactive before and after an update, is stored with success and nothing is called, whatever would fail |
| StoredRows.RunSealed | ipsec-backend/db/crypto.go:152-170 | Over every run, whatever fails, no pre-shared key is stored in the clear |
| StoredRows.FreshStart | ipsec-backend/app.go:65-84 | The first database holds the hardware row with its name and default proposals |
| LifecycleRuns.RunKeepsRow1 | ipsec-backend/app.go:724-913 | Over every run in which new rows get new ids, whatever fails, without a delete whose number is another one and becomes 1 when cut to 32 bits, row 1 exists and is named "hardware" |
| LifecycleRuns.StepConsistent | ipsec-backend/app.go:515-550 | Each single request, accepted, refused or panicking, keeps rows and files in step |
| LifecycleRuns.DeleteConsistent | ipsec-backend/app.go:872-913 | A delete of a software row takes out that row alone and keeps files and rows in step, also for an inactive row with certificates, where removing them fails and the row still goes; it succeeds exactly when the row is active or has no certificates |
| LifecycleRuns.StepPanics | ipsec-backend/config/software_generator.go:45-55 | Without failures the requests that panic are exactly the accepted ones that leave a software VRF active when neither the request nor the row before has an OSPF flag |
| Removals.LeftExactly | ipsec-backend/config/software_generator.go:90-145 | Under any failures, deleting a stored row's configuration leaves some file of it if and only if the row was active and one of the calls that remove the environment, the configuration or a certificate fails |
| Removals.DeleteExactly | ipsec-backend/app.go:893-907 | Under any failures a delete drops the row, and rows and files are in step after it if and only if no path of the row is left, which is as in LeftExactly |
| Removals.FailedDeleteLeaves | ipsec-backend/app.go:893-907 | Deleting an active VRF while the first call fails leaves its files to no row |
| LifecycleRuns.InitialConsistent | ipsec-backend/app.go:65-84 | The state after start-up, with the hardware row only, satisfies the invariant |
| LifecycleRuns.Row1KeptExactly | ipsec-backend/app.go:872-913 | Whatever fails, a request keeps row 1 and its name if and only if it is not a delete whose number is another one and becomes 1 when cut to 32 bits |
| LifecycleRuns.Row1Lost | ipsec-backend/app.go:872-913 | Deleting number 2^32 + 1 loses row 1 |
| LifecycleRuns.StoredRow | ipsec-backend/db/db.go:260-267 | Sealing commutes with laying the request over the old row, so the deployed VRF is the re-read row; what the fields are, StoredRows.UpdateStores says |
| LifecycleRuns.JsonOkExactly | ipsec-backend/app.go:552-598 | The check that the handlers' model makes of a request is the one made of its JSON |
| FrrRuns.RunBgp | ipsec-backend/config/frr.go:46-75 | Over every run without failures, panics included, BGP instances are exactly those of the active software rows that need one (OSPF on or an endpoint with BGP, and an AS number other than 0) and have an OSPF flag, with the rows' AS numbers; so they are as needed if and only if no active row that needs one lacks the flag |
| FrrRuns.StepBgp | ipsec-backend/config/software_generator.go:57-105 | BGP instances that are as needed stay so through a request if and only if it is not one that panics with a BGP endpoint in it |
| FrrRuns.PanicMissesBgp | ipsec-backend/config/software_generator.go:45-55 | Creating an active VRF with a BGP endpoint and no OSPF flag panics and leaves it without its instance |
| FrrRuns.DeployBgp | ipsec-backend/app.go:529-548 | An update that changes the AS takes the old instance down with the old number before it starts the new one, also when it then panics; OSPF grows by the row's id when the row wants it |
| FrrRuns.StepOspf | ipsec-backend/config/frr.go:71-75 | No request withdraws an OSPF instance, whatever fails |
| FrrRuns.OspfOutlives | ipsec-backend/config/templates/frr.template:6-34 | An OSPF instance, once started, runs through all later requests |
| FrrRuns.RunOspf | ipsec-backend/config/frr.go:71-75 | Over every run without failures the OSPF instances are exactly those of the VRFs that were active with the OSPF flag on at some time |
| Daemons.RunDaemons | ipsec-backend/config/software_generator.go:57-105 | Over every run without failures strongSwan's connections and supervisord's programs are those of the files on disk, which are those of the active software rows, if and only if the last request that called the host was not one that panics; and neither ever works from a file that is gone or has changed |
| Daemons.StepLoads | ipsec-backend/config/software_generator.go:79-98 | From any state and under any failures, a request that is answered with success and calls the host leaves both daemons working from the files that are there |
| Daemons.DeleteLoads | ipsec-backend/config/software_generator.go:90-105 | A deletion has both daemons read what is left, also when removing certificates fails after that |
| LifecycleRuns.RunBgpHalves | ipsec-backend/config/hardware_generator.go:118-126 | In every reachable state, under any failures, the IPv6 BGP subset of a row is empty and the IPv4 subset is all its BGP endpoints in order |
| LifecycleProofs.DeployConsistent | ipsec-backend/app.go:529-548 | Replacing a row and its deployment keeps the invariant and succeeds unless the new row is active and has no OSPF flag, when it panics |
| LifecycleProofs.DeleteStored | ipsec-backend/config/software_generator.go:90-105 | Deleting the configuration of a stored row removes all of it and nothing else; it reports an error exactly when the row is inactive and has certificates |
| LifecycleProofs.AgreeDeployed | ipsec-backend/config/software_generator.go:57-88 | A complete deployment next to other VRFs' files makes files and rows agree |
| Lifecycle.Backend.constructor | ipsec-backend/app.go:65-84 | The table starts with the hardware row |
| Lifecycle.Backend.DeployRow | ipsec-backend/app.go:529-548 | The four cases of old and new activity, with the old row deleted before the new one is generated |
| Lifecycle.Backend.SaveAndDeploy | ipsec-backend/app.go:515-550 | Seal, store, read back, unseal, deploy, stopping at the first error with the row already stored |
| Lifecycle.Backend.Create | ipsec-backend/app.go:640-722 | createVrf: checks, one sealing and storing of its own, then the common path |
| Lifecycle.Backend.Update | ipsec-backend/app.go:724-816 | updateVrf: the check of the 64-bit number, the row of the 32-bit one, the fixed hardware name, the inherited active flag |
| Lifecycle.Backend.Delete | ipsec-backend/app.go:872-913 | deleteVrf: every call is made, whatever the ones before it returned |
| Compensation.FailedActivationUndone | ipsec-ui-react/src/hooks/useFetchData.ts:42-50 | At every point at which activating an inactive VRF may fail, the compensating request with active=false leaves it inactive, with files and BGP instances exactly as before |
| Compensation.CompensationExactly | ipsec-ui-react/src/hooks/useFetchData.ts:42-50 | For every accepted patch of a software VRF, active before or not, to be active, inactive or left as it is, and any failures: the compensation brings files and rows back in step if and only if the first request left, when it made the row active, the new row's certificates without a gap from the first one on and none of the old row's beside them, and otherwise no path of the old row |
| Compensation.DeactivationExactly | ipsec-backend/app.go:530-540 | After a patch to an inactive row the compensation calls nothing, and files and rows are in step after it if and only if the old row was inactive or no call of the patch that removes files failed |
| Compensation.FailedDeactivationStays | ipsec-ui-react/src/hooks/useCreateVRFMainView.ts:47-51 | A deactivation whose first call fails is not put right by its compensation |
| BgpCompensation.BgpCompensationExactly | ipsec-backend/app.go:530-548 | For every accepted patch of a software VRF and any failures: after the compensation BGP instances and rows agree if and only if the old row had no instance, or writing vtysh's file and reloading it in the old row's deletion both work, or the patch is to an active row and does not change the AS number |
| BgpCompensation.ChangedAsStays | ipsec-backend/config/frr.go:71-75 | When a patch changes the AS number and that reload fails, the old instance outlives the compensation and, whatever fails then, the VRF |
| Leftovers.HalfDeletionLeaves | ipsec-ui-react/src/hooks/useFetchData.ts:42-50 | When a patch of an active VRF that keeps its certificate paths fails at the second removal, the compensation leaves files that belong to no active row |
| Leftovers.HalfDeletionHappens | ipsec-backend/config/software_generator.go:128-145 | Every first VRF with certificates has such a run: create it, patch it with the same body while the second removal fails, patch it back |
| Leftovers.FailedDeactivationHappens | ipsec-backend/app.go:530-540 | Every first VRF has a run that ends out of step: create it active, patch it to inactive while the first call fails, patch it again |
| Leftovers.CertifiedAccepted | ipsec-backend/app.go:640-722 | There is a VRF that these runs can start with |
| Leftovers.DeleteLeavesTorn | ipsec-backend/app.go:872-913 | Deleting the VRF does not remove them, whatever else works or fails |
| Leftovers.ActivationRecovers | ipsec-backend/config/software_generator.go:57-88 | Deploying a row over whatever files of its own are there makes files and rows agree |
| Leftovers.ThirdPatchRecovers | ipsec-backend/app.go:529-548 | After any failure of a patch that keeps the certificate paths, to an active row or not, and any compensation, activating the VRF again brings files and rows back in step |
| Compensation.FailedCreateDeleted | ipsec-backend/app.go:640-722 | An accepted create that fails at any point and a delete of its row restore rows, files and BGP instances |
| Compensation.DeploymentUndone | ipsec-backend/config/software_generator.go:57-145 | Wherever a deployment stopped, deleting the row's configuration restores the files |
| DeploymentProofs.GenerateWritesPrefix | ipsec-backend/config/software_generator.go:57-88 | Wherever a deployment stops, what it wrote is a prefix of its files in their order, and all of them unless it reports a failure |
| DeploymentProofs.GenerateNoFaults | ipsec-backend/config/software_generator.go:45-88 | Without failures all files are written, and only a missing OSPF flag keeps the deployment from succeeding |
| DeploymentProofs.GenerateTouchesOnlyOwn | ipsec-backend/config/software_generator.go:57-126 | Deploying a VRF, under any failures, changes no path but its own and vtysh's |
| DeploymentProofs.DeleteTouchesOnlyOwn | ipsec-backend/config/software_generator.go:90-145 | Nor does deleting one |
| DeploymentProofs.SamePathOrder | ipsec-backend/config/software_generator.go:107-145 | deleteCerts walks the paths of saveCerts in the same order |
| DeploymentProofs.RemovePrefix | ipsec-backend/config/software_generator.go:128-145 | When a leading part of the certificates is there, removal takes exactly that part away and succeeds only if it is all of them |
| DeploymentProofs.RemoveSucceeds | ipsec-backend/config/software_generator.go:128-145 | When all are there, removal succeeds exactly when the paths are pairwise distinct |
| DeploymentProofs.DeletePrefix | ipsec-backend/config/software_generator.go:90-105 | Deleting a VRF of which a prefix was written removes all of it |
| DeploymentProofs.CertPathInjective | ipsec-backend/config/software_generator.go:107-145 | A certificate or key path determines client and address, for every client text |
| DeploymentProofs.IdPathInjective | ipsec-backend/config/software_generator.go:147-157 | A configuration or environment path determines the VRF's id |
| DeploymentProofs.PathsDisjoint | ipsec-backend/config/software_generator.go:107-157 | VRFs with different ids and client names have no path in common |
| DeploymentProofs.DistinctPaths | ipsec-backend/config/software_generator.go:107-126 | A VRF's certificate paths are pairwise distinct exactly when its certificate addresses are |
| SoftwareGenerator.Host.Write | ipsec-backend/config/software_generator.go:107-126 | An atomic file write that may fail |
| SoftwareGenerator.Host.Erase | ipsec-backend/config/software_generator.go:90-105 | RemoveAll succeeds on a missing path |
| SoftwareGenerator.Host.Unlink | ipsec-backend/config/software_generator.go:128-145 | Remove fails on a missing path |
| SoftwareGenerator.Host.RestartStrongswan | ipsec-backend/config/supervisor.go:49-54 | strongSwan reads the files that are there, unless the call fails |
| SoftwareGenerator.Host.UpdateSupervisor | ipsec-backend/config/supervisor.go:30-47 | So does supervisord |
| SoftwareGenerator.Host.RestartVtysh | ipsec-backend/config/supervisor.go:56-61 | FRR runs the commands in vtysh's file, unless the call fails |
| SoftwareGenerator.Generator.SaveCerts | ipsec-backend/config/software_generator.go:107-126 | The loop writes the certificates of certs endpoints in order and stops at the first failure |
| SoftwareGenerator.Generator.DeleteCerts | ipsec-backend/config/software_generator.go:128-145 | The loop removes them in order and stops at the first failure |
| SoftwareGenerator.Generator.StoreFrr | ipsec-backend/config/frr.go:23-33 | The commands replace vtysh's file, and only then FRR reloads |
| SoftwareGenerator.Generator.Generate | ipsec-backend/config/software_generator.go:57-88 | Certificates, configuration, environment, FRR, reloads, up to the first failure |
| SoftwareGenerator.Generator.DeleteAll | ipsec-backend/config/software_generator.go:90-105 | All six deletions run, and the answer is good only if all were |
| Validation.VerifyEndpoints | ipsec-backend/app.go:609-638 | An error exactly for a malformed endpoint list or an address with a colon; otherwise whether some endpoint speaks BGP |
| Validation.VrfSubJsonValidSW | ipsec-backend/app.go:552-598 | Accepts exactly the well-formed software VRFs and panics exactly when the loop reaches a VLAN that is no object |
| Validation.VrfSubJsonValidHW | ipsec-backend/app.go:600-607 | Accepts exactly the objects with well-formed IPv4 endpoints |
| Validation.CheckVlans | ipsec-backend/app.go:578-596 | Counting ids in a map finds a duplicate exactly when there is one |
| Validation.VrfValid | ipsec-backend/app.go:494-513 | The decoded checks: interface, positive VLAN ids, no BGP without peer addresses |
| Validation.VrfCreateValid | ipsec-backend/app.go:487-492 | A create is never for the hardware id |
| Validation.VrfUpdateValid | ipsec-backend/app.go:480-485 | The hardware VRF passes unchecked |
| Validation.AcceptedExactly | ipsec-backend/app.go:480-638 | With well-typed JSON a software create or update passes if and only if VLAN ids are positive and distinct, no tunnel address has a colon, BGP comes with a local AS and peer addresses, and the interface is named |
| Validation.BgpEndpointSubset | ipsec-backend/config/hardware_generator.go:118-126 | The loop computes the subset of one address family |
| Validation.BgpHalves | ipsec-backend/config/hardware_generator.go:118-126 | For IPv4 endpoints one half is empty and the other is all BGP endpoints in order |
| Validation.BgpSubsetExactly | ipsec-backend/config/hardware_generator.go:118-126 | For arbitrary addresses a half holds exactly the BGP endpoints whose two tunnel addresses both are IPv6, or the other BGP endpoints |
| SupervisorEnv.ExecuteSupervisorTemplate | ipsec-backend/config/software_generator.go:205-262 | The loops build the environment that the round trip is about, or fail on a blank LAN address |
| SupervisorEnv.EnvironmentRoundTrip | docker/supervisor_content/ipsec.sh:8-14 | With valid addresses the printed environment, read by the shell and awk, gives back interface, id, flag, the VLAN pairs and for every endpoint its addresses, the word for a missing peer, NAT and id |
| SupervisorEnv.EnvironFails | ipsec-backend/config/software_generator.go:220-225 | Printing fails exactly on a VLAN whose address has nothing but white space in it |
| IpsecScript.Machine.Term | docker/supervisor_content/ipsec.sh:36-69 | The handler step by step: links, raw chain with flush, nat chain without |
| IpsecScript.Machine.SetUpVlans | docker/supervisor_content/ipsec.sh:81-98 | The VRF link and one link per VLAN |
| IpsecScript.Machine.SetUpTables | docker/supervisor_content/ipsec.sh:99-113 | The two chains, their hooks and the zone rules |
| IpsecScript.Machine.SetUpEndpoints | docker/supervisor_content/ipsec.sh:117-139 | One xfrm link and possibly one masquerading rule per endpoint |
| IpsecScript.Machine.SetUpVrf | docker/supervisor_content/ipsec.sh:78-151 | The whole start, with the route of the last endpoint's condition |
| IpsecScript.Machine.Cycle | docker/supervisor_content/ipsec.sh:72-158 | Clean-up, start and stop in sequence |
| IpsecCycles.TeardownNetRestores | docker/supervisor_content/ipsec.sh:36-69 | The handler removes whatever the script may have added to links and routes, and nothing else |
| IpsecCycles.CycleNetRestores | docker/supervisor_content/ipsec.sh:76-151 | One cycle does not change links and routes |
| IpsecCycles.CycleRawRestores | docker/supervisor_content/ipsec.sh:60-62 | One cycle does not change the raw table |
| IpsecCycles.CycleNatAdds | docker/supervisor_content/ipsec.sh:66-67 | One cycle adds its masquerading rules to what earlier cycles left |
| IpsecCycles.VrfCyclesLeave | docker/supervisor_content/ipsec.sh:36-139 | For a VRF with k NAT endpoints n cycles are undone completely when k is 0 and otherwise leave exactly one detached chain of n * k masquerading rules |
| IpsecCycles.StartedLinks | docker/supervisor_content/ipsec.sh:118-132 | After the start every endpoint has an up link in the VRF with its id and addresses |
| StartedScript.StartedVrf | docker/supervisor_content/ipsec.sh:78-139 | On a machine without anything of this VRF a start leaves its VRF link, one VLAN link on the interface per VLAN with the LAN address and one ipsec link per endpoint with its id and tunnel addresses, under these names, all up and in the VRF |
| StartedScript.StartedRoutes | docker/supervisor_content/ipsec.sh:140-150 | It adds the default route over all endpoint links if and only if there are endpoints and peer addresses are disabled or the last endpoint has none; all other routes stay |
| StartedScript.StartedZones | docker/supervisor_content/ipsec.sh:99-109 | The raw table gets one zone rule for the endpoint links and one per VLAN in order, in a chain the base chain jumps to |
| StartedScript.StartedNat | docker/supervisor_content/ipsec.sh:110-136 | The nat table gets one masquerading rule for each endpoint that asks for it, in their order |
| InterfaceNames.NamesInjective | docker/supervisor_content/ipsec.sh:118-120 | Up to 99 endpoints an interface name belongs to one VRF and one endpoint |
| InterfaceNames.NamesCollide | docker/supervisor_content/ipsec.sh:118-120 | The name of endpoint i is one of the first 99 names of another VRF if and only if i >= 100 and 100 does not divide i |
| Base64.PaddedRoundTrip | ipsec-backend/app.go:162-174 | Trimming "=" and raw decoding invert padded base 64 for every byte string |
| Base64.RawRoundTrip | ipsec-backend/db/crypto.go:107-150 | Raw decoding inverts the raw encoding that secrets are stored in |
| Base64.RawEncodeAt | ipsec-backend/db/crypto.go:84-90 | The k-th letter stands for the k-th six bits in the alphabet of section 4 of RFC 4648 |
| Base64.RawEncodeLength | ipsec-backend/db/crypto.go:84-90 | There are as many letters as the bits need, and no padding |
| Crypto.OpenSealed | ipsec-backend/db/crypto.go:19-61 | A sealed text opens to itself under its key, is an error under any other, and never makes decrypt slice out of range |
| Crypto.EncryptSeals | ipsec-backend/db/crypto.go:19-41 | Under a 32-byte key sealing cannot fail |
| Crypto.IdealIsPossible | ipsec-backend/db/crypto.go:19-61 | The assumption on the primitives can be met |
| Vault.RandString | ipsec-backend/db/crypto.go:65-71 | Exactly n characters, each the letter drawn for it |
| Vault.Store.EnsureMaster | ipsec-backend/db/crypto.go:73-91 | A master password is stored only when there is none |
| Vault.Store.Set | ipsec-backend/db/crypto.go:107-132 | SetSetting with what it leaves when a later call fails |
| Vault.Store.Change | ipsec-backend/db/crypto.go:194-203 | Both table operations run even when the first one fails |
| Vault.Store.EncryptInPlace | ipsec-backend/db/crypto.go:152-170 | The endpoint slice is overwritten element by element with exactly one more layer, up to the first element that fails |
| Vault.EncryptedSliceIs | ipsec-backend/db/crypto.go:152-170 | A call that goes through leaves the sealed endpoints in the slice, and one that does not leaves every endpoint as it was |
| VaultRefinement.RunRefines | ipsec-backend/db/crypto.go:19-203 | Over every run of SetSetting, creates, updates, deletes and password changes the tables refine a plain store: one row per setting name, every key 32 bytes, one layer of sealing around each stored secret |
| VaultRefinement.StepRefines | ipsec-backend/db/crypto.go:107-203 | Each operation answers as the plain store does, never panics, and keeps the refinement |
| VaultRefinement.RunReads | ipsec-backend/db/crypto.go:93-192 | After every run a read agrees with the plain store; told from the operations and the hash alone in VaultReads.ReadsLast |
| VaultReads.StepAnswers | ipsec-backend/db/crypto.go:73-203 | After every run an operation goes through if and only if it is a deletion, or the first setting of all, or its password has the digest of the one in force, which is that of the first setting or of the last change that went through |
| VaultReads.ReadsLast | ipsec-backend/db/crypto.go:93-192 | After every run a setting reads as what was set last if the password has the digest of the one in force, and is an error otherwise or when it was never set; so do the pre-shared keys of every VRF |
| VaultReads.OtherDigestReadsNothing | ipsec-backend/db/crypto.go:93-105 | A password with another digest reads nothing |
| VaultReads.ChangedReads | ipsec-backend/db/crypto.go:194-203 | After a change whose table operations may fail, settings read under the new password's digest, under the old one's, or not at all, as the two answers decide |
| VaultReads.StartupReads | ipsec-backend/app.go:105-123 | Start-up succeeds exactly when nothing was stored or the password in force has the digest of the built-in one, and what it does not name reads as before |
| VaultReads.StartupWrites | ipsec-backend/app.go:105-123 | A start-up that succeeds has stored what it names, under the built-in password |
| VaultReads.StoredLayout | ipsec-backend/db/crypto.go:19-41 | A stored secret is raw base 64 of twelve bytes of nonce and the sealed text |
| VaultRefinement.CreateRefines | ipsec-backend/app.go:693-704 | createVrf's two rounds of sealing end with one layer |
| VaultRefinement.SaveRefines | ipsec-backend/app.go:515-528 | Seal, store, read back and open hands on the endpoints in the clear |
| VaultRefinement.ChangePasswordFaults | ipsec-backend/db/crypto.go:194-203 | With table operations that may fail the secrets end up under the new password, stay under the old one or are lost, decided by the two answers |
| VaultRefinement.StartupOutcome | ipsec-backend/app.go:105-123 | From every state a run can reach start-up succeeds if and only if nothing was stored yet or the built-in password is the current one, and the store still refines the plain one with only the written settings changed |
| VaultRefinement.StartupAfterRun | ipsec-backend/app.go:105-123 | After every run that stored something, start-up with the built-in password succeeds if and only if that password is as good as the current one to the store, and either way every other setting and every pre-shared key reads as before |
| VaultRefinement.StartupFirst | ipsec-backend/app.go:105-123 | After every run that stored nothing start-up succeeds and the store holds what it names |
| VaultRefinement.WrittenElsewhere | ipsec-backend/app.go:105-123 | Settings that start-up does not name keep their values |
| BasicAuth.PassOfHeader | ipsec-backend/app.go:162-174 | A client's header (section 2 of RFC 7617) gives back the password up to its first colon |
| BasicAuth.PassOfAnyUser | ipsec-backend/app.go:162-174 | It does so whatever user name the header carries |
| BasicAuth.HeaderOutcome | ipsec-backend/app.go:162-174 | A missing header and one that is no base 64 are errors; one cut short or without a colon makes the handler panic |
| BasicAuth.ReadableAfterChange | ipsec-backend/app.go:125-135 | After a change each request with the new password reads every setting if and only if the password has no colon, unless the hash of the cut password collides |
| BasicAuth.FailedChangeLocksOut | ipsec-backend/app.go:125-135 | After a change that fails past the password file a setting can be read with a password if and only if it is the new one, the part of it before a colon has the old one's hash, and the store was not emptied |
| BasicAuth.RestartReads | ipsec-backend/app.go:105-123 | A restart succeeds exactly when the store admits the built-in password; then that password and no other reads the settings, and after a failed one none does |
| BasicAuth.RestartWithDefault | ipsec-backend/app.go:105-109 | That holds of the password that is built in, which has no colon |
| Switch.Connection.TryRequest | ipsec-backend/config/hardware_generator.go:372-391 | The retry loop |
| Switch.SendOutcome | ipsec-backend/config/hardware_generator.go:372-391 | For every sequence of replies at most 20 attempts, retries only on lock-denied, and the request takes effect once or not at all |
| HardwareGenerator.ReverseSlice | ipsec-backend/config/hardware_generator.go:269-279 | Swapping from the middle outwards reverses a copy and leaves the argument alone |
| HardwareGenerator.Generator.DoTemplateFolderCreate | ipsec-backend/config/hardware_generator.go:176-227 | Files in name order up to the first that does not render or is not accepted; which of them that is told from the endpoints in HardwareResult.DeploymentLeaves |
| HardwareGenerator.LocalIdTypeFails | ipsec-backend/config/hardware_generator.go:229-252 | The kind of a local id is found for every text but "@", whatever the address parser says |
| HardwareGenerator.LocalIdKinds | ipsec-backend/config/hardware_generator.go:229-252 | A text with "=" is a name, one with "@" in it an e-mail address, one that "@" leads a key id or a domain name as "#" follows or not, and of the rest addresses are addresses, other texts with a colon key ids and those without domain names |
| HardwareGenerator.Generator.InsertPkcs12 | ipsec-backend/config/hardware_generator.go:328-345 | One import for every endpoint of the VRF |
| HardwareGenerator.Generator.GenerateConfigs | ipsec-backend/config/hardware_generator.go:57-94 | Length checks, psk folder, imports, certs folder |
| HardwareGenerator.Generator.DoTemplateFolderDelete | ipsec-backend/config/hardware_generator.go:281-326 | Delete URLs file by file from the last to the first, errors ignored |
| HardwareGenerator.Generator.DeleteConfigs | ipsec-backend/config/hardware_generator.go:96-116 | Both folders, those with endpoints |
| HardwareProofs.CreateFolderPrefix | ipsec-backend/config/hardware_generator.go:176-227 | The accepted requests of a folder are a prefix of its files whatever the switch replies |
| HardwareProofs.GeneratePrefix | ipsec-backend/config/hardware_generator.go:57-94 | The accepted requests of a deployment are a prefix of its full list, all of it exactly when it succeeds |
| HardwareProofs.GenerateSucceeds | ipsec-backend/config/hardware_generator.go:57-94 | On a willing switch a deployment succeeds if and only if there are three crypto items per phase, two when there is nothing to deploy, and no pre-shared-key endpoint has the local id "@" |
| HardwareProofs.LoneAtFails | ipsec-backend/config/hw_templates/psk/03-profile.tmpl:26-31 | An endpoint with the local id "@" makes every such deployment fail |
| HardwareResult.DeploymentLeaves | ipsec-backend/config/hardware_generator.go:176-227 | After a deployment that reports success a resource is on the switch if and only if it was there before or the endpoints call for it, and its references are those it had and those the templates name; the BGP process is called for exactly when a psk or certs endpoint has BGP, trustpoints for all endpoints as soon as one has certificates |
| HardwareResult.EndpointDeployed | ipsec-backend/config/hw_templates/psk/07-tunnels.tmpl:6-40 | Every psk or certs endpoint has its tunnel on its IPsec profile, that on its IKEv2 profile and the transform set, the IKEv2 profile on the keyring or its trustpoint, the policy on the proposal, IPv6 routing, and with BGP the process of the VRF's AS |
| HardwareResult.TakeDownRemoves | ipsec-backend/config/hardware_generator.go:281-326 | On a switch that refuses nothing a take-down removes exactly these, of trustpoints only those of endpoints with certificates and the BGP process in any case |
| HardwareResult.PatchDeploys | ipsec-backend/app.go:529-548 | From every state a patch that leaves row 1 active, with a switch that accepts what is created, leaves every endpoint of the new row deployed, whatever deletes were refused |
| HardwareResult.StepTakesDown | ipsec-backend/app.go:529-548 | Making row 1 inactive, or deleting it, takes away exactly what a take-down of it removes |
| HardwareResult.StepLeavesAlone | ipsec-backend/app.go:818-870 | A request that does not reach the switch, or is about a row inactive before and after, leaves the switch alone, and the row follows the request |
| HardwareProofs.CreateStepsClosed | ipsec-backend/config/hw_templates/psk/05-ipsec-profile.tmpl:6-29 | At every step of a deployment no resource refers to a missing one |
| HardwareRemoval.DeleteStepsExactly | ipsec-backend/config/hardware_generator.go:281-326 | After any prefix of the creating requests and any prefix of the deletes, whatever the switch replies to them, no resource refers to a missing one if and only if no delete of a resource was refused while one of what it refers to was accepted |
| HardwareRemoval.DeleteStepsClosed | ipsec-backend/config/hardware_generator.go:281-326 | A switch that refuses nothing has no such reference at any step of the reversed deletion |
| HardwareRemoval.RefusedDeleteDangles | ipsec-backend/config/hardware_generator.go:318-321 | Every VRF with one pre-shared-key endpoint whose tunnel the switch refuses to delete is left with a tunnel that refers to a missing profile |
| HardwareProofs.CreateThenDelete | ipsec-backend/config/hw_templates/certs/01-trustpoint.tmpl:6-17 | On a willing switch create succeeds if and only if the VRF is deployable, and create then delete leaves exactly the trustpoints imported for endpoints without certificates and takes IPv6 routing and the BGP process away even if they were there before; all else is as it was |
| HardwareProofs.PartialThenDelete | ipsec-backend/config/hardware_generator.go:57-116 | Wherever the switch stopped a deployment, deleting the VRF leaves exactly the trustpoints accepted that no certs deletion names, and takes the shared resources away; all else is as it was |
| HardwareRuns.RunAccounted | ipsec-backend/app.go:529-548 | Over every run of patches and deletes of row 1, whether they reach the switch or not and whatever it replies: it is as it was before, without the shared resources that take-downs named, with exactly the trustpoints imported and not named by a take-down since, with what a take-down named and did not take away, and with what was accepted of the current deployment |
| HardwareRuns.WillingKeepsNothing | ipsec-backend/app.go:854-870 | When every take-down reaches the switch and none of its deletes is refused, nothing that a take-down named is kept |
| HardwareRuns.UnreachedKeeps | ipsec-backend/app.go:854-870 | After a patch of an active row 1 that does not reach the switch, the row is the new one and what the switch has of the old one is still there |
| HardwareProofs.OneKindLeavesNothing | ipsec-backend/config/hardware_generator.go:328-362 | A VRF of one kind leaves no trustpoint |
| HardwareProofs.UrlsMatchBody | ipsec-backend/config/hardware_generator.go:281-326 | Each template file creates exactly what its delete URLs name |
| WhenExpr.KeyBitsAllowed | ipsec-backend/config/hardware_generator.go:570-577 | The token loop decides as the specification function of the proofs does |
| WhenExpr.EspHmacAllowed | ipsec-backend/config/hardware_generator.go:128-138 | So does its twin for integrity |
| WhenExpr.AllowedIsXPath | ipsec-backend/config/hardware_generator.go:128-138 | For every conjunction of `../esp != 'X'` clauses with non-empty, blank-free X the code decides as XPath does, except for the misreading it states, and exactly then |
| WhenExpr.MisreadHappens | ipsec-backend/config/hardware_generator.go:570-577 | A text and a cipher for which the two differ |
| WhenExpr.MergeEncryptions | ipsec-backend/config/hardware_generator.go:579-593 | The nested loops compute the merged list, which WhenExpr.MergedExactly describes |
| WhenExpr.MergedReadsBack | ipsec-backend/config/hardware_generator.go:579-593 | The merged length is the sum over the ciphers, and every entry splits back into a source cipher with a key length exactly when it is allowed one |
| WhenExpr.MergedExactly | ipsec-backend/config/hardware_generator.go:579-593 | The merged list goes through the ciphers in order; for one that the condition allows it has cipher, blank and key length for every key length in order, for another one the cipher on its own |
| WhenExpr.NothingLost | ipsec-backend/config/hardware_generator.go:579-593 | For every cipher that XPath allows a key length and every key length the two together are in the list, and every other cipher is there on its own |
| WhenExpr.EntryTakenApart | ipsec-backend/config/hardware_generator.go:145-155 | The template functions get cipher and key length back out of an entry |
| ErrorStore.SizeStrToInt | ipsec-backend/db/db.go:362-372 | Kilobytes to bytes with 64-bit wrap-around, never below 4096 |
| ErrorStore.Table.RotateErrorsBySize | ipsec-backend/db/db.go:342-360 | The loop terminates and deletes the fewest oldest rows that make the table fit |
| ErrorStore.Table.RotateErrorsByDate | ipsec-backend/db/db.go:374-379 | Rows older than the cutoff go, only when rotation is by date |
| ErrorStore.Table.StoreError | ipsec-backend/app.go:1137-1142 | Rotate, then insert |
| ErrorStore.RotatedFits | ipsec-backend/db/db.go:342-360 | With a limit of at least 4096 and an empty table of at most that, the table fits after rotation and no fewer rows would have done |
| ErrorStore.DropOldestDropsOldest | ipsec-backend/db/db.go:342-360 | No row goes before an older one, whatever the order of the table |
| ErrorStore.DropOldestKeeps | ipsec-backend/db/db.go:342-360 | What is left is some of the rows, and as many have gone as were to |
| ErrorStore.KeepFromExactly | ipsec-backend/db/db.go:374-379 | Rotation by date gives up exactly the rows before the cutoff, whatever the order of the table |
| ErrorStore.RunKeepsSuffix | ipsec-backend/app.go:1137-1142 | Over every run with a monotone clock the kept rows are a suffix of all errors in (time, id) order, and the table without its newest row fits the limit |
| ErrorStore.RunByDate | ipsec-backend/app.go:1137-1142 | Over every run that rotates by date, whatever the clock does, a row is in the table if and only if it has been stored and no later cutoff has passed it |
| ErrorStore.RunBySize | ipsec-backend/db/db.go:374-379 | When rotation goes by size, listing the errors changes nothing over any run |
| Restconf.Receiver.FromYang | ipsec-backend/db/restconf.go:138-172 | The receiver's fields and lists are the specification's, or the call panics |
| Restconf.ToYang | ipsec-backend/db/restconf.go:85-124 | The loops fill the two maps by key |
| Restconf.FromYangOutcome | ipsec-backend/db/restconf.go:66-74 | FromYang goes through if and only if every dereferenced leaf is there and panics otherwise |
| Restconf.YangRoundTrip | ipsec-backend/db/restconf.go:85-172 | ToYang after FromYang, in any map order, is the identity up to server-assigned ids and nil leaves becoming defaults |
| Restconf.RowRoundTrip | ipsec-backend/db/restconf.go:36-172 | The other way round, for rows with distinct keys |
| Restconf.RowFields | ipsec-backend/db/restconf.go:66-172 | The row has every leaf in its place; texts absent from the authentication are empty, absent flags stay absent, and the proposals are the dot-free pieces of the text |
| Restconf.YangFields | ipsec-backend/db/restconf.go:36-124 | The other way round an absent flag shows as false, and every VLAN and endpoint is under its own key |
| Restconf.EndpointsKept | ipsec-backend/db/restconf.go:95-98 | No endpoint is lost in the map if and only if the remote names are distinct |
| Text.JoinOfSplit | ipsec-backend/db/restconf.go:94-95 | Join of split is the identity on all texts |
| Text.SplitOfJoin | ipsec-backend/db/restconf.go:152-157 | Split of join is the identity on lists of texts without the separator |
| Text.AtoiOfSigned | ipsec-backend/config/strongswan.go:57-60 | A numeral may have a sign and has to fit 64 bits |
| Text.AtoiRefuses | ipsec-backend/config/strongswan.go:57-60 | Nothing else than digits may follow, and there has to be one |
| Text.DecimalStart | ipsec-backend/config/software_generator.go:229-234 | A printed number has no leading zeros |
| Monitoring.GetStrongswanState | ipsec-backend/config/strongswan.go:62-110 | The loops fill the map with the listed connections and their states |
| Monitoring.GetMonitoring | ipsec-backend/config/strongswan.go:31-55 | The report has one entry per shown connection, under its endpoint's id |
| Monitoring.IdRecovered | ipsec-backend/config/strongswan.go:57-60 | The id comes back out of "client_id" for every client text |
| Monitoring.DashFreeShown | ipsec-backend/config/strongswan.go:31-55 | Every endpoint of a client without dashes is shown |
| Monitoring.SearchNameOf | ipsec-backend/config/strongswan.go:35 | Of a name with dashes only the first one is replaced in the search text |
| Monitoring.ConnectionReported | ipsec-backend/config/strongswan.go:31-110 | From the daemon's listing to the report, every connection of such a client is reported under its id, with its own addresses and status when no other connection has that id |
| Monitoring.ReportSays | ipsec-backend/config/strongswan.go:31-110 | Told from the daemon's two lists: the peer address is the connection's, the local one too unless it is "%any", which shows as the unspecified address of the peer's family, and the status is "up" if and only if the last association of that name is established or active |
| Monitoring.ListingOutcome | ipsec-backend/config/strongswan.go:62-110 | The listing is an error exactly when a name does not end in a number, and panics exactly when an association belongs to no listed connection |
| Monitoring.TwoDashesHidden | ipsec-backend/config/strongswan.go:31-55 | No endpoint of a client with two dashes or more is shown |
| Monitoring.OneDashShown | ipsec-backend/config/strongswan.go:31-55 | With one dash an endpoint is shown if and only if the text after the dash contains the search text |

## Left out

- HTTP routing, status codes, JSON and YANG decoding: a request is a datatype; the authorization header and the raw JSON checks are modelled.
- Failures of the database other than in a password change: its statements are taken to succeed.
- AES-GCM, SHA-256 and randomness: ideal functions and parameters; a hash collision that matters is a stated condition.
- File paths: names are texts, so ".." or "/" inside a client name is not resolved, and a write is atomic.
- Fixed text of the strongSwan, supervisor and FRR templates: `Content` holds what they are executed with.
- FRR: one BGP instance per VRF, AS 0 unknown, another AS refused while an instance runs; routing itself is not modelled.
- strongSwan and supervisord: which files they last read; what they do with them is not modelled.
- Kernel: links, addresses, one default route per VRF and chains, without the 15-character limit on interface names and without links stacked on the script's own.
- SQLite's page accounting: the size of the error table is an arbitrary function of its rows with a bound for the empty table.
- Switch resources: only names and references; the choice of transform sets, transformLocalID, which no template calls, and the values inside a resource are not part of this model.
- Hardware monitoring, source interfaces, algorithm download from the switch, CA files, log tailing: network or file input without state of their own.
- The React user interface, except for the compensating request.
- Validation.AcceptedExactly: it is about well-typed JSON; for arbitrary JSON see the contracts of VrfSubJsonValidSW and VrfSubJsonValidHW.
- Compensation.FailedActivationUndone: OSPF instances started by the failed request stay, because nothing ever withdraws one, and vtysh's own file is not compared.
- LifecycleRuns.RunConsistent: the switch's configuration is not part of its state; the runs of the hardware VRF are those of HardwareRuns.
