/**
 * The collector's registry of monitored applications, as the servlet uses it: the
 * node URLs of each application, which applications have data available, the first
 * application, and the registration and removal of an application.
 */
module Registry {
  import opened Wrappers

  /** A node's monitoring URL, with the parts of `java.net.URL` the servlet reads. */
  datatype Url = Url(text: string, host: string, port: int)

  predicate Distinct(names: seq<string>)
  {
    forall i, j :: 0 <= i < j < |names| ==> names[i] != names[j]
  }

  /** `names` with `x` taken out, the others keeping their order. */
  function Without(names: seq<string>, x: string): (r: seq<string>)
    ensures forall y :: y in r <==> y in names && y != x
    ensures Distinct(names) ==> Distinct(r)
  {
    if names == [] then []
    else
      var rest := Without(names[1..], x);
      assert Distinct(names) ==> Distinct(names[1..]) && names[0] !in rest;
      (if names[0] == x then [] else [names[0]]) + rest
  }

  class CollectorServer {
    /** Registered application names, oldest registration first. */
    var applications: seq<string>
    /** The node URLs of each registered application. */
    var urlsByApplication: map<string, seq<Url>>
    /** The applications whose collected data is available. */
    var available: set<string>

    ghost predicate Valid()
      reads this
    {
      && Distinct(applications)
      && (forall a :: a in urlsByApplication <==> a in applications)
      && available <= urlsByApplication.Keys
    }

    constructor ()
      ensures Valid()
      ensures applications == [] && urlsByApplication == map[] && available == {}
    {
      applications, urlsByApplication, available := [], map[], {};
    }

    /** `isApplicationDataAvailable(application)`. */
    predicate IsApplicationDataAvailable(application: string)
      reads this
    {
      application in available
    }

    /** `getFirstApplication()`: the earliest registered application, null when there is none. */
    function GetFirstApplication(): (r: Option<string>)
      reads this
      ensures r.None? <==> applications == []
      ensures r.Some? ==> r.value in applications
    {
      if applications == [] then None else Some(applications[0])
    }

    /** `addCollectorApplication(application, urls)`: registers or re-registers an application. */
    method AddCollectorApplication(application: string, urls: seq<Url>)
      requires Valid()
      modifies this
      ensures Valid()
      ensures urlsByApplication == old(urlsByApplication)[application := urls]
      ensures applications == if application in old(applications) then old(applications) else old(applications) + [application]
      ensures available == old(available) + {application}
    {
      if application !in applications {
        applications := applications + [application];
      }
      urlsByApplication := urlsByApplication[application := urls];
      available := available + {application};
    }

    /** `removeCollectorApplication(application)`. */
    method RemoveCollectorApplication(application: string)
      requires Valid()
      modifies this
      ensures Valid()
      ensures urlsByApplication == old(urlsByApplication) - {application}
      ensures applications == Without(old(applications), application)
      ensures available == old(available) - {application}
    {
      applications := Without(applications, application);
      urlsByApplication := urlsByApplication - {application};
      available := available - {application};
    }
  }
}
